/**
 * The status registry `http.client.responses` (code to reason phrase) as the
 * response layer sees it after poorwsgi/response.py:35 sets the phrase of 418,
 * and the `"%d %s"` status line built from it.
 */
module StatusTable {
  import opened Wrappers
  import opened Text
  import State

  /** The host platform's table (the phrases of Python 3.9 to 3.12's `http.HTTPStatus`):
      `Some(phrase)` for a registered code, `None` where `responses[code]` raises KeyError. */
  function PlatformReason(code: int): Option<string> {
    match code
    case 100 => Some("Continue")
    case 101 => Some("Switching Protocols")
    case 102 => Some("Processing")
    case 103 => Some("Early Hints")
    case 200 => Some("OK")
    case 201 => Some("Created")
    case 202 => Some("Accepted")
    case 203 => Some("Non-Authoritative Information")
    case 204 => Some("No Content")
    case 205 => Some("Reset Content")
    case 206 => Some("Partial Content")
    case 207 => Some("Multi-Status")
    case 208 => Some("Already Reported")
    case 226 => Some("IM Used")
    case 300 => Some("Multiple Choices")
    case 301 => Some("Moved Permanently")
    case 302 => Some("Found")
    case 303 => Some("See Other")
    case 304 => Some("Not Modified")
    case 305 => Some("Use Proxy")
    case 307 => Some("Temporary Redirect")
    case 308 => Some("Permanent Redirect")
    case 400 => Some("Bad Request")
    case 401 => Some("Unauthorized")
    case 402 => Some("Payment Required")
    case 403 => Some("Forbidden")
    case 404 => Some("Not Found")
    case 405 => Some("Method Not Allowed")
    case 406 => Some("Not Acceptable")
    case 407 => Some("Proxy Authentication Required")
    case 408 => Some("Request Timeout")
    case 409 => Some("Conflict")
    case 410 => Some("Gone")
    case 411 => Some("Length Required")
    case 412 => Some("Precondition Failed")
    case 413 => Some("Request Entity Too Large")
    case 414 => Some("Request-URI Too Long")
    case 415 => Some("Unsupported Media Type")
    case 416 => Some("Requested Range Not Satisfiable")
    case 417 => Some("Expectation Failed")
    case 418 => Some("I'm a Teapot")
    case 421 => Some("Misdirected Request")
    case 422 => Some("Unprocessable Entity")
    case 423 => Some("Locked")
    case 424 => Some("Failed Dependency")
    case 425 => Some("Too Early")
    case 426 => Some("Upgrade Required")
    case 428 => Some("Precondition Required")
    case 429 => Some("Too Many Requests")
    case 431 => Some("Request Header Fields Too Large")
    case 451 => Some("Unavailable For Legal Reasons")
    case 500 => Some("Internal Server Error")
    case 501 => Some("Not Implemented")
    case 502 => Some("Bad Gateway")
    case 503 => Some("Service Unavailable")
    case 504 => Some("Gateway Timeout")
    case 505 => Some("HTTP Version Not Supported")
    case 506 => Some("Variant Also Negotiates")
    case 507 => Some("Insufficient Storage")
    case 508 => Some("Loop Detected")
    case 510 => Some("Not Extended")
    case 511 => Some("Network Authentication Required")
    case _ => None
  }

  /** `responses[code]` after `responses[HTTP_I_AM_A_TEAPOT] = "I'm a teapot"`. */
  function Reason(code: int): (r: Option<string>)
    ensures code != State.HTTP_I_AM_A_TEAPOT ==> r == PlatformReason(code)
  {
    if code == State.HTTP_I_AM_A_TEAPOT then Some("I'm a teapot") else PlatformReason(code)
  }

  /** `code in responses` */
  predicate Registered(code: int) {
    Reason(code).Some?
  }

  /** The patch registers 418 with its own phrase and touches no other code. */
  lemma TeapotRegistered()
    ensures PlatformReason(418) == Some("I'm a Teapot")
    ensures Reason(State.HTTP_I_AM_A_TEAPOT) == Some("I'm a teapot")
    ensures forall c :: Registered(c) <==> PlatformReason(c).Some?
  {
  }

  /** The codes a response uses by default are registered. */
  lemma RegisteredConstants()
    ensures Registered(State.HTTP_OK) && Registered(State.HTTP_NO_CONTENT)
    ensures Registered(State.HTTP_MOVED_PERMANENTLY) && Registered(State.HTTP_MOVED_TEMPORARILY)
    ensures Registered(State.HTTP_NOT_MODIFIED)
  {
  }

  /** DECLINED and three of the `HTTP_*` constants (444, 499, 599) are not registered,
      so a response built with them fails. */
  lemma UnregisteredConstants()
    ensures !Registered(State.DECLINED)
    ensures !Registered(State.HTTP_CONNECTION_CLOSED_WITHOUT_RESPONSE)
    ensures !Registered(State.HTTP_CLIENT_CLOSED_REQUEST)
    ensures !Registered(State.HTTP_NETWORK_CONNECT_TIMEOUT_ERROR)
  {
  }

  /** Every registered code is a three-digit status. */
  lemma RegisteredCodesAreThreeDigit()
    ensures forall c :: Registered(c) ==> 100 <= c <= 599
  {
  }

  /** `"%d %s" % (status_code, reason)` */
  function StatusLine(code: int, reason: string): string {
    IntToString(code) + " " + reason
  }

  /** The status line of a plain response. */
  lemma OkStatusLine()
    ensures StatusLine(State.HTTP_OK, "OK") == "200 OK"
  {
    ThreeDigits(200);
  }

  /** The status line of an `EmptyResponse`. */
  lemma NoContentStatusLine()
    ensures StatusLine(State.HTTP_NO_CONTENT, "No Content") == "204 No Content"
  {
    ThreeDigits(204);
  }

  /** The status line of a `NotModifiedResponse`. */
  lemma NotModifiedStatusLine()
    ensures StatusLine(State.HTTP_NOT_MODIFIED, "Not Modified") == "304 Not Modified"
  {
    ThreeDigits(304);
  }

  /** Splits a status line at its first space into the numeral and the reason. */
  function ParseStatusLine(line: string): (int, string) {
    if ' ' !in line then (0, line)
    else
      var k := IndexOf(line, ' ');
      var code := ParseInt(line[..k]);
      (if code.Some? then code.value else 0, line[k + 1..])
  }

  /** A status line determines its code and reason: the numeral holds no space. */
  lemma StatusLineRoundTrip(code: int, reason: string)
    ensures ParseStatusLine(StatusLine(code, reason)) == (code, reason)
  {
    var d := IntToString(code);
    var line := StatusLine(code, reason);
    assert line[|d|] == ' ';
    assert ' ' in line;
    var k := IndexOf(line, ' ');
    assert k == |d|;
    assert line[..k] == d;
    assert line[k + 1..] == reason;
    IntToStringRoundTrip(code);
  }
}
