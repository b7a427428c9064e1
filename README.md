# alist client core in Dafny

This project models the pure core of `alist.py`, a small client for an alist
file-storage server. The client logs in to get a bearer token, uploads a file
with an HTTP PUT, and builds public download links. The model covers:

- **Remote-path normalisation** (`FormatRemoteFilePath`). A path that does not start
  with `/` gets one in front; any other path is returned unchanged.
- **Download URLs** (`GetDownloadUrl`). A URL is the server address, then `/d`, then
  the normalised path. `RemotePathOfUrl` is the inverse: it reads the path back out.
- **The response envelope** (`CommonResponse`). Every reply has a `code`, a `message`
  and a decoded `data` payload. The login and upload calls both check
  `code != 200`. On failure they raise an exception whose text is
  `alist <ctx> failed, code=<code>, message=<message>`, where ctx is `login` or
  `upload`. `IntToDecimal` renders the code the way Python's `str` renders an int.
  `ParseFailure` reads the code and message back out of the text. It accepts
  only the exact texts the client generates, so a code spelled `0400` is rejected.
- **Requests**. The login request holds the given credentials. Its one-time code
  defaults to empty. Its JSON body has the fields `username`, `password` and
  `otp_code`. The upload headers are `File-Path`, `As-Task: false` and
  `Authorization`.
- **Calls, with the transport as a parameter**. `LoginUncached` models the
  uncached login as one function. `post` is the HTTP call, passed in as a
  parameter; it receives the endpoint URL (`ApiLogin`) and the body. `Upload`
  models the upload once the file is open. `quote` (the percent-encoder) and
  `put` (the HTTP call, which receives `ApiUpload`) are passed in the same way.

Modules: `Wrappers` (Option and Result), `Decimal` (integer rendering and its
inverse parser), and `Alist` (everything else).

The source raises a plain `Exception` that carries only the formatted text. It
does not use separate exception classes for login and upload errors. The model
follows the code, so an error is `Err(text)`. The only thing that tells the two
kinds apart is the context word in the text (`LoginAndUploadTextsDiffer`).

## Model

| member | source | states |
|---|---|---|
| `Decimal.NatToDecimal` | alist.py:24 | The rendering of a non-negative code is non-empty, all digits, and has no leading zero unless the value is 0 |
| `Decimal.IntToDecimal` | alist.py:24 | `str(code)` is non-empty, starts with `-` exactly when the code is negative, has no comma, and after any sign is a numeral with no leading zero (`0` only for zero) |
| `Decimal.NatToDecimalValue` | alist.py:24 | Reading the digits of a rendered natural number back gives the number |
| `Decimal.IntToDecimalRoundTrip` | alist.py:24 | Parsing the rendering of any integer code gives the code back |
| `Decimal.NumeralValueRoundTrip` | alist.py:24 | Every numeral without a leading zero is the rendering of the number it stands for |
| `Decimal.ParseIntSound` | alist.py:24 | Whatever the reader accepts is exactly `str` of the integer it reads, so the reader and `str` are inverse in both directions |
| `Decimal.ParseIntRejectsNonCanonical` | alist.py:24 | Spellings that `str` never produces (`0400`, `-0`, the empty text) are rejected |
| `Decimal.IntToDecimalInjective` | alist.py:24 | Two codes render the same exactly when they are equal |
| `Alist.DefaultCommonResponse` | alist.py:16-20 | A fresh envelope has code 200, message "success" and empty data |
| `Alist.DefaultLoginResponse` | alist.py:34-36 | A fresh login reply has an empty token |
| `Alist.DefaultResponseSucceeds` | alist.py:16-20 | A default envelope passes the code check in every context, and a login on it yields the empty token |
| `Alist.FormatRemoteFilePath` | alist.py:68-75 | The result starts with `/` and ends with the input, is at most one longer, and equals the input exactly when the input already starts with `/` |
| `Alist.FormatPrefixesRelative` | alist.py:72-73 | A path without a leading `/` gains exactly one leading `/`: one longer, with the input after it |
| `Alist.FormatIdempotent` | alist.py:68-75 | Normalising twice gives the same path as normalising once |
| `Alist.GetDownloadUrl` | alist.py:111-114 | The URL starts with the server address followed by `/d/`, ends with the given path, and its length is the base's length plus the normalised path's |
| `Alist.DownloadUrlRoundTrip` | alist.py:111-114 | The path read back from a download URL is the normalised input path |
| `Alist.RemotePathOfUrlSound` | alist.py:111-114 | Every URL from which a path can be read is the download URL of that path |
| `Alist.DownloadUrlInjective` | alist.py:111-114 | Two paths give the same URL exactly when they normalise to the same path |
| `Alist.DownloadUrlOfFormatted` | alist.py:112-114 | Normalising the path first does not change the URL |
| `Alist.GenerateException` | alist.py:23-24 | The text starts with `alist <ctx> failed, code=`, ends with `, message=<message>`, and the code and message can be read back from it |
| `Alist.GenerateExceptionParts` | alist.py:24 | Helper for `ParseFailureSound`: restates the definition of the error text, regrouped as the prefix `alist <ctx> failed, code=` followed by `str(code)`, `, message=` and the message. It is not an independent property; that is `GenerateException`'s read-back together with `ParseFailureSound` |
| `Alist.CodeAndMessageRoundTrip` | alist.py:24 | After the prefix, a comma-free numeral of the code, the separator and any message read back as that code and message |
| `Alist.CodeAndMessageSound` | alist.py:24 | Whatever follows the prefix of an accepted text is exactly `str(code)`, the separator and the message that were read |
| `Alist.ParseFailureSound` | alist.py:23-24 | Every text the reader accepts is the one generated for the code and message it reads, so generating and reading error texts are inverse in both directions |
| `Alist.GenerateExceptionInjective` | alist.py:23-24 | Within one context, two error texts are equal exactly when code and message are both equal |
| `Alist.LoginAndUploadTextsDiffer` | alist.py:23-24 | A login error text is never equal to an upload error text |
| `Alist.CheckResponse` | alist.py:60-61 | The check succeeds exactly when code is 200; otherwise the error text carries the envelope's code and message |
| `Alist.LoginResult` | alist.py:59-65 | Login succeeds exactly when code is 200 and then returns the data's token; otherwise the error is the `login` text with the code and message |
| `Alist.UploadResult` | alist.py:98-100 | Upload succeeds exactly when code is 200; otherwise the error is the `upload` text with the code and message |
| `Alist.MakeLoginRequest` | alist.py:51-55 | The request holds exactly the given username, password and one-time code, and the code is `""` when it is omitted |
| `Alist.LoginRequestBody` | alist.py:57 | The posted body has exactly the keys `username`, `password` and `otp_code` |
| `Alist.LoginRequestBodyRoundTrip` | alist.py:27-31 | The request can be read back unchanged from its body |
| `Alist.LoginUncached` | alist.py:51-65 | An uncached login succeeds exactly when the reply to the credentials, posted to the login endpoint, has code 200, and then returns that reply's token; otherwise it fails with the `login` text of that reply |
| `Alist.UploadHeaders` | alist.py:92-96 | The headers are exactly `File-Path` (the encoded path), `As-Task` = "false" and `Authorization` (the token) |
| `Alist.Upload` | alist.py:82-100 | A failed login aborts the upload with the login's error. Otherwise the normalised, encoded path and the token are sent to the upload endpoint, and the upload succeeds exactly when the reply's code is 200, failing with the `upload` text of that reply otherwise |
| `Alist.FormatExamples` | alist.py:68-75 | `/a/b` stays `/a/b` and `a/b` becomes `/a/b` |
| `Alist.DownloadUrlExample` | alist.py:111-114 | `/dir/file.txt` gives `http://114.132.252.185:5244/d/dir/file.txt` |
| `Alist.FailureExample` | alist.py:23-24 | A login reply with code 400 and message "bad credentials" fails with `alist login failed, code=400, message=bad credentials` |

## Left out

- HTTP transport (`requests.post`, `requests.put`, `raw_res.json()`, alist.py:57, 92-98): network I/O. In the model, the transport is a function parameter that returns the decoded envelope.
- The login cache (`with_cache`, alist.py:43-48): its module, `util.py`, is not part of this model, so its 24-hour expiry cannot be modelled from source. Note that its key (`"alist"`, `"login"`) does not depend on the credentials. A cached token is therefore returned whatever credentials are passed. `Upload` takes the token result as a parameter, so it covers both a cached and a fresh login.
- Generic map/object conversion (`auto_update_config`, `to_raw_type` from `dao`): not part of this model. Envelopes and replies arrive as decoded records. The request body is built field by field (`LoginRequestBody`). A reply whose fields have the wrong JSON types is not modelled.
- Reading `ALIST_USERNAME` and `ALIST_PASSWORD` from the environment (alist.py:79-80): the credentials a caller passes are what the model uses.
- File system (`os.stat`, `open`, alist.py:84, 91): the file size and the file's bytes are not modelled. `Upload` starts once the file is open, so a missing local file is not modelled either.
- Timing, throughput and logging (alist.py:85-89, 102-108): wall-clock time, float division and log output. The division by zero when the elapsed time is 0 is not modelled.
- Percent-encoding (`urllib.parse.quote`, alist.py:93): a library call, passed to `Upload` as the parameter `quote`.
- Demo and command-line entry points (alist.py:117-145).
