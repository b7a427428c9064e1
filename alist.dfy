/**
 * The pure part of the alist file-storage client: remote-path normalisation,
 * download-URL construction, the response-envelope check with its error text,
 * and the login and upload requests. The HTTP transport and the percent-encoder
 * are passed in as functions; a response arrives already decoded.
 */
module Alist {
  import opened Wrappers
  import opened Decimal

  /** Base address of the storage server. */
  const ServerAddr := "http://114.132.252.185:5244"
  const ApiLogin := ServerAddr + "/api/auth/login"
  const ApiUpload := ServerAddr + "/api/fs/put"

  /** The two contexts named in error texts. */
  const LoginCtx := "login"
  const UploadCtx := "upload"

  /** The code every successful envelope carries. */
  const SuccessCode := 200

  // ---------------------------------------------------------------- records

  /** The decoded `data` of a login reply. */
  datatype LoginResponse = LoginResponse(token: string)

  /**
   * The envelope of every reply. `data` holds the payload already decoded as a
   * login reply; the upload path never looks at it.
   */
  datatype CommonResponse = CommonResponse(code: int, message: string, data: LoginResponse)

  datatype LoginRequest = LoginRequest(username: string, password: string, otpCode: string)

  /** The code and message an error text reports. */
  datatype FailureInfo = FailureInfo(code: int, message: string)

  /** A fresh login reply: an empty token. */
  function DefaultLoginResponse(): (r: LoginResponse)
    ensures r.token == ""
  {
    LoginResponse("")
  }

  /** A fresh envelope: code 200, message "success", empty data. */
  function DefaultCommonResponse(): (r: CommonResponse)
    ensures r.code == SuccessCode && r.message == "success"
    ensures r.data == DefaultLoginResponse()
  {
    CommonResponse(SuccessCode, "success", DefaultLoginResponse())
  }

  // ---------------------------------------------------------- remote paths

  predicate StartsWithSlash(p: string) {
    |p| > 0 && p[0] == '/'
  }

  /** True when `s` ends with `t`. */
  predicate EndsWith(s: string, t: string) {
    |t| <= |s| && s[|s| - |t|..] == t
  }

  /** Makes a remote path absolute by putting "/" in front when it is missing. */
  function FormatRemoteFilePath(p: string): (r: string)
    ensures StartsWithSlash(r)
    ensures EndsWith(r, p) && |r| <= |p| + 1
    ensures r == p <==> StartsWithSlash(p)
  {
    if StartsWithSlash(p) then p else "/" + p
  }

  /** A path that does not start with "/" gains exactly one leading "/". */
  lemma FormatPrefixesRelative(p: string)
    requires !StartsWithSlash(p)
    ensures |FormatRemoteFilePath(p)| == |p| + 1
    ensures FormatRemoteFilePath(p)[1..] == p
  {
  }

  lemma FormatIdempotent(p: string)
    ensures FormatRemoteFilePath(FormatRemoteFilePath(p)) == FormatRemoteFilePath(p)
  {
  }

  // ---------------------------------------------------------- download URLs

  /** The part of every download URL that comes before the normalised path. */
  const DownloadBase := ServerAddr + "/d"

  /** The public link of a remote file: the base address, "/d", then the absolute path. */
  function GetDownloadUrl(p: string): (u: string)
    ensures DownloadBase + "/" <= u
    ensures EndsWith(u, p)
    ensures |u| == |DownloadBase| + |FormatRemoteFilePath(p)|
  {
    var r := FormatRemoteFilePath(p);
    AppendAbsolute(DownloadBase, r, p);
    DownloadBase + r
  }

  /** Appending an absolute path `r` that ends with `p` to a base `a`. */
  lemma AppendAbsolute(a: string, r: string, p: string)
    requires StartsWithSlash(r) && EndsWith(r, p)
    ensures a + "/" <= a + r
    ensures EndsWith(a + r, p)
  {
    assert (a + r)[|a + r| - |p|..] == r[|r| - |p|..];
  }

  /** Reads the remote path back out of a download URL; None for any other text. */
  function RemotePathOfUrl(u: string): Option<string> {
    if DownloadBase <= u && StartsWithSlash(u[|DownloadBase|..]) then Some(u[|DownloadBase|..]) else None
  }

  /** The download URL carries the normalised path and nothing else. */
  lemma DownloadUrlRoundTrip(p: string)
    ensures RemotePathOfUrl(GetDownloadUrl(p)) == Some(FormatRemoteFilePath(p))
  {
    var r := FormatRemoteFilePath(p);
    assert (DownloadBase + r)[|DownloadBase|..] == r;
  }

  /** Every URL the reader accepts is the download URL of the path it reads. */
  lemma RemotePathOfUrlSound(u: string)
    requires RemotePathOfUrl(u).Some?
    ensures GetDownloadUrl(RemotePathOfUrl(u).value) == u
  {
    var r := u[|DownloadBase|..];
    assert DownloadBase + r == u;
  }

  /** Two paths share a download URL exactly when they normalise to the same path. */
  lemma DownloadUrlInjective(p: string, q: string)
    ensures GetDownloadUrl(p) == GetDownloadUrl(q) <==> FormatRemoteFilePath(p) == FormatRemoteFilePath(q)
  {
    DownloadUrlRoundTrip(p);
    DownloadUrlRoundTrip(q);
  }

  /** Normalising before building the URL changes nothing. */
  lemma DownloadUrlOfFormatted(p: string)
    ensures GetDownloadUrl(FormatRemoteFilePath(p)) == GetDownloadUrl(p)
  {
    FormatIdempotent(p);
  }

  // ------------------------------------------------------------ error texts

  const MessageSeparator := ", message="

  function FailurePrefix(ctx: string): string {
    "alist " + ctx + " failed, code="
  }

  /** The index of the first `c` in `s`, or |s| when there is none. */
  function IndexOf(s: string, c: char): (i: nat)
    ensures i <= |s|
    ensures i < |s| ==> s[i] == c
    ensures Avoids(s[..i], c)
  {
    if |s| == 0 then 0
    else if s[0] == c then 0
    else
      var j := IndexOf(s[1..], c);
      assert s[..1 + j] == [s[0]] + s[1..][..j];
      1 + j
  }

  /**
   * Reads the code and message from what follows the prefix of an error text:
   * the numeral runs up to the first comma, and the separator follows it.
   */
  function ParseCodeAndMessage(rest: string): Option<FailureInfo> {
    var i := IndexOf(rest, ',');
    var tail := rest[i..];
    if !(MessageSeparator <= tail) then None
    else
      match ParseInt(rest[..i])
      case None => None
      case Some(code) => Some(FailureInfo(code, tail[|MessageSeparator|..]))
  }

  /** Reads the code and message back out of an error text of context `ctx`. */
  function ParseFailure(ctx: string, text: string): Option<FailureInfo> {
    var prefix := FailurePrefix(ctx);
    if prefix <= text then ParseCodeAndMessage(text[|prefix|..]) else None
  }

  /**
   * The text of the exception raised for a failed reply: "alist <ctx> failed,
   * code=<code>, message=<message>", from which the code and message can be
   * read back.
   */
  function GenerateException(res: CommonResponse, ctx: string): (text: string)
    ensures FailurePrefix(ctx) <= text
    ensures EndsWith(text, MessageSeparator + res.message)
    ensures ParseFailure(ctx, text) == Some(FailureInfo(res.code, res.message))
  {
    var numeral := IntToDecimal(res.code);
    var text := FailurePrefix(ctx) + numeral + MessageSeparator + res.message;
    FailureTextShape(FailurePrefix(ctx), numeral, MessageSeparator, res.message, text);
    IntToDecimalRoundTrip(res.code);
    CodeAndMessageRoundTrip(numeral, res.code, res.message);
    text
  }

  /** Where the parts of a concatenated text sit. */
  lemma FailureTextShape(prefix: string, numeral: string, sep: string, message: string, text: string)
    requires text == prefix + numeral + sep + message
    ensures prefix <= text && text[|prefix|..] == numeral + sep + message
    ensures EndsWith(text, sep + message)
  {
    assert text == prefix + (numeral + sep + message);
    assert text == (prefix + numeral) + (sep + message);
  }

  /** A comma-free numeral, the separator and any message read back as that code and message. */
  lemma CodeAndMessageRoundTrip(numeral: string, code: int, message: string)
    requires Avoids(numeral, ',') && ParseInt(numeral) == Some(code)
    ensures ParseCodeAndMessage(numeral + MessageSeparator + message) == Some(FailureInfo(code, message))
  {
    var sep := MessageSeparator;
    var rest := numeral + sep + message;
    var i := IndexOf(rest, ',');
    assert rest[|numeral|] == sep[0] == ',';
    assert forall j :: 0 <= j < |numeral| ==> rest[j] == numeral[j];
    assert i == |numeral|;
    assert rest[..i] == numeral;
    assert rest[i..] == sep + message;
  }

  /** Whatever ParseCodeAndMessage accepts is `str(code)`, the separator and the message. */
  lemma CodeAndMessageSound(rest: string, code: int, message: string)
    requires ParseCodeAndMessage(rest) == Some(FailureInfo(code, message))
    ensures rest == IntToDecimal(code) + MessageSeparator + message
  {
    var numeral := CodeAndMessageSplit(rest, code, message);
    ParseIntSound(numeral, code);
  }

  /** An accepted text splits at its first comma into a numeral and the separator with the message. */
  lemma CodeAndMessageSplit(rest: string, code: int, message: string) returns (numeral: string)
    requires ParseCodeAndMessage(rest) == Some(FailureInfo(code, message))
    ensures ParseInt(numeral) == Some(code)
    ensures rest == numeral + MessageSeparator + message
  {
    var i := IndexOf(rest, ',');
    var tail := rest[i..];
    numeral := rest[..i];
    assert MessageSeparator <= tail && ParseInt(numeral) == Some(code);
    assert message == tail[|MessageSeparator|..];
    JoinAfterPrefix(MessageSeparator, tail, message);
    assert rest == numeral + tail;
  }

  /** The reader of error texts is exact: the text it accepts is the one generated for what it reads. */
  lemma ParseFailureSound(ctx: string, text: string, code: int, message: string, data: LoginResponse)
    requires ParseFailure(ctx, text) == Some(FailureInfo(code, message))
    ensures GenerateException(CommonResponse(code, message, data), ctx) == text
  {
    var prefix := FailurePrefix(ctx);
    CodeAndMessageSound(text[|prefix|..], code, message);
    JoinAfterPrefix(prefix, text, IntToDecimal(code) + MessageSeparator + message);
    GenerateExceptionParts(CommonResponse(code, message, data), ctx);
  }

  lemma JoinAfterPrefix(prefix: string, text: string, rest: string)
    requires prefix <= text && text[|prefix|..] == rest
    ensures text == prefix + rest
  {
  }

  /** The error text as the context prefix followed by everything after it. */
  lemma GenerateExceptionParts(res: CommonResponse, ctx: string)
    ensures GenerateException(res, ctx) == FailurePrefix(ctx) + (IntToDecimal(res.code) + MessageSeparator + res.message)
  {
    var numeral := IntToDecimal(res.code);
    assert FailurePrefix(ctx) + numeral + MessageSeparator + res.message
        == FailurePrefix(ctx) + (numeral + MessageSeparator + res.message);
  }

  /** Two error texts of one context agree exactly when they report the same code and message. */
  lemma GenerateExceptionInjective(a: CommonResponse, b: CommonResponse, ctx: string)
    ensures GenerateException(a, ctx) == GenerateException(b, ctx) <==> a.code == b.code && a.message == b.message
  {
  }

  /** A login failure and an upload failure never produce the same text. */
  lemma LoginAndUploadTextsDiffer(a: CommonResponse, b: CommonResponse)
    ensures GenerateException(a, LoginCtx) != GenerateException(b, UploadCtx)
  {
    var s, t := GenerateException(a, LoginCtx), GenerateException(b, UploadCtx);
    assert FailurePrefix(LoginCtx)[6] == 'l' && FailurePrefix(UploadCtx)[6] == 'u';
    assert s[6] != t[6];
  }

  // ------------------------------------------------------- envelope checks

  /** The `code != 200` check of both calls: success, or the exception's text. */
  function CheckResponse(res: CommonResponse, ctx: string): (r: Result<(), string>)
    ensures r.Ok? <==> res.code == SuccessCode
    ensures r.Err? ==> ParseFailure(ctx, r.error) == Some(FailureInfo(res.code, res.message))
  {
    if res.code != SuccessCode then Err(GenerateException(res, ctx)) else Ok(())
  }

  /** What a login makes of its decoded reply: the token, or the "login" exception text. */
  function LoginResult(res: CommonResponse): (r: Result<string, string>)
    ensures r.Ok? <==> res.code == SuccessCode
    ensures r.Ok? ==> r.value == res.data.token
    ensures r.Err? ==> ParseFailure(LoginCtx, r.error) == Some(FailureInfo(res.code, res.message))
  {
    match CheckResponse(res, LoginCtx)
    case Err(e) => Err(e)
    case Ok(_) => Ok(res.data.token)
  }

  /** What an upload makes of its decoded reply: nothing, or the "upload" exception text. */
  function UploadResult(res: CommonResponse): (r: Result<(), string>)
    ensures r.Ok? <==> res.code == SuccessCode
    ensures r.Err? ==> ParseFailure(UploadCtx, r.error) == Some(FailureInfo(res.code, res.message))
  {
    CheckResponse(res, UploadCtx)
  }

  /** A reply left at its defaults counts as a success and yields an empty token. */
  lemma DefaultResponseSucceeds(ctx: string)
    ensures CheckResponse(DefaultCommonResponse(), ctx) == Ok(())
    ensures LoginResult(DefaultCommonResponse()) == Ok("")
  {
  }

  // ------------------------------------------------------------- requests

  /** The login request for the given credentials; the one-time code is empty unless given. */
  function MakeLoginRequest(username: string, password: string, otpCode: string := ""): (req: LoginRequest)
    ensures req.username == username && req.password == password && req.otpCode == otpCode
  {
    LoginRequest(username, password, otpCode)
  }

  /** The JSON body of a login request, field by field under the names the server expects. */
  function LoginRequestBody(req: LoginRequest): (body: map<string, string>)
    ensures body.Keys == {"username", "password", "otp_code"}
  {
    map["username" := req.username, "password" := req.password, "otp_code" := req.otpCode]
  }

  /** Reads a login request back from a body; None when a field is missing. */
  function LoginRequestOfBody(body: map<string, string>): Option<LoginRequest> {
    if "username" in body && "password" in body && "otp_code" in body
    then Some(LoginRequest(body["username"], body["password"], body["otp_code"]))
    else None
  }

  /** The body carries exactly the request's three credentials. */
  lemma LoginRequestBodyRoundTrip(req: LoginRequest)
    ensures LoginRequestOfBody(LoginRequestBody(req)) == Some(req)
  {
  }

  /**
   * An uncached login: the request body for the credentials is posted to the
   * login endpoint `ApiLogin` by `post`, and its reply decides the result.
   */
  function LoginUncached(post: (string, map<string, string>) -> CommonResponse,
                         username: string, password: string, otpCode: string := ""): (r: Result<string, string>)
    ensures var res := post(ApiLogin, LoginRequestBody(LoginRequest(username, password, otpCode)));
      && (r.Ok? <==> res.code == SuccessCode)
      && (r.Ok? ==> r.value == res.data.token)
      && (r.Err? ==> ParseFailure(LoginCtx, r.error) == Some(FailureInfo(res.code, res.message)))
  {
    LoginResult(post(ApiLogin, LoginRequestBody(MakeLoginRequest(username, password, otpCode))))
  }

  /** The headers of an upload, the remote path given already percent-encoded. */
  function UploadHeaders(encodedPath: string, token: string): (h: map<string, string>)
    ensures h.Keys == {"File-Path", "As-Task", "Authorization"}
    ensures h["File-Path"] == encodedPath && h["As-Task"] == "false" && h["Authorization"] == token
  {
    map["File-Path" := encodedPath, "As-Task" := "false", "Authorization" := token]
  }

  /**
   * One upload, once the file is open: the token comes from `token` (a failed
   * login aborts with its own error), the normalised remote path is encoded
   * by `quote`, and `put` sends the file to the upload endpoint `ApiUpload`
   * with the headers and returns the reply.
   */
  function Upload(token: Result<string, string>, quote: string -> string,
                  put: (string, map<string, string>) -> CommonResponse, remotePath: string): (r: Result<(), string>)
    ensures token.Err? ==> r == Err(token.error)
    ensures token.Ok? ==>
      var res := put(ApiUpload, UploadHeaders(quote(FormatRemoteFilePath(remotePath)), token.value));
      && (r.Ok? <==> res.code == SuccessCode)
      && (r.Err? ==> ParseFailure(UploadCtx, r.error) == Some(FailureInfo(res.code, res.message)))
  {
    match token
    case Err(e) => Err(e)
    case Ok(t) => UploadResult(put(ApiUpload, UploadHeaders(quote(FormatRemoteFilePath(remotePath)), t)))
  }

  // ------------------------------------------------------------- examples

  lemma FormatExamples()
    ensures FormatRemoteFilePath("/a/b") == "/a/b"
    ensures FormatRemoteFilePath("a/b") == "/a/b"
  {
  }

  lemma DownloadUrlExample()
    ensures GetDownloadUrl("/dir/file.txt") == "http://114.132.252.185:5244/d/dir/file.txt"
  {
    assert FormatRemoteFilePath("/dir/file.txt") == "/dir/file.txt";
    assert DownloadBase == "http://114.132.252.185:5244/d";
    assert DownloadBase + "/dir/file.txt" == "http://114.132.252.185:5244/d/dir/file.txt";
  }

  lemma FailureExample()
    ensures LoginResult(CommonResponse(400, "bad credentials", DefaultLoginResponse()))
         == Err("alist login failed, code=" + "400" + ", message=" + "bad credentials")
  {
    assert NatToDecimal(4) == "4";
    assert NatToDecimal(40) == "40";
    assert NatToDecimal(400) == "400";
    assert IntToDecimal(400) == "400";
    assert FailurePrefix(LoginCtx) == "alist login failed, code=";
    var res := CommonResponse(400, "bad credentials", DefaultLoginResponse());
    assert GenerateException(res, LoginCtx) == "alist login failed, code=" + "400" + ", message=" + "bad credentials";
  }
}
