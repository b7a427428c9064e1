/** Option and Result values used for the client's error paths. */
module Wrappers {

  datatype Option<+T> = None | Some(value: T)

  /** The outcome of a remote call: a value, or the text of the exception raised. */
  datatype Result<+T, +E> = Ok(value: T) | Err(error: E)
}
