/**
 * The response objects of poorwsgi/response.py and their render protocol.
 *
 * Python's class hierarchy becomes one class, `BaseResponse`, whose constant
 * `variant` says which Python class an object is and holds what that class
 * adds (the buffer, the file object, the generator). Constructors that can
 * raise become static factory methods returning a `Result`; `__call__`
 * becomes `Call`, which returns what the WSGI `start_response` callable was
 * given together with the payload handed to the server.
 */
module Responses {
  import opened Wrappers
  import opened Text
  import opened Headers
  import opened Streams
  import StatusTable
  import State

  /** Representation headers a 304 response should not carry (section 15.4.5 of RFC 9110). */
  const NOT_MODIFIED_DENY: set<string> :=
    {"Content-Encoding", "Content-Language", "Content-Length", "Content-MD5", "Content-Range", "Content-Type"}

  /** Headers of which a 304 response should carry at least one. */
  const NOT_MODIFIED_ONE_OF_REQUIRED: set<string> := {"Content-Location", "Date", "ETag", "Vary"}

  /** The header set of a response built without headers. */
  const DEFAULT_HEADERS: seq<Header> := [("X-Powered-By", "Poor WSGI for Python")]

  const CONTENT_TYPE := "Content-Type"
  const CONTENT_LENGTH := "Content-Length"
  const HTML_UTF8 := "text/html; charset=utf-8"
  const OCTET_STREAM := "application/octet-stream"
  const USED_TWICE := "Response can be used only once!"
  const DATA_AND_KWARGS := "Only one of data and kwargs is allowed."
  const NEEDS_SIMPLEJSON := "JSONGeneratorResponse need simplejson module"
  const NOT_BINARY := "file_obj must be binary stream"
  const BAD_VALUES := "Returned data must by: <bytes|str>, <str>, <Headers|None>, <int>"
  /** The private attribute `FileObjResponse` reads before it has set it for a non-seekable file. */
  const FILE_POS_ATTRIBUTE := "_FileObjResponse__pos"

  /** The exceptions the response layer raises or lets through. */
  datatype Error =
    | KeyError(code: int)              // `responses[code]` for an unregistered code
    | ValueError(status: int)          // "Bad response status %s"
    | RuntimeError(message: string)
    | AssertionError(message: string)
    | AttributeError(name: string)
    | NotImplementedError(message: string)
    | ResponseError(message: string)
    | StartResponseError               // whatever the `start_response` callable raised

  /** The log warnings a caller can observe. */
  datatype Warning =
    | RepresentationHeaderIn304        // "Some representation header in Not Modified response"
    | MissingRequiredHeaderIn304       // "Missing any required header in Not Modified response"
    | DeclinedHeaders                  // "Declined response don't use headers."
    | PermanentDeprecated              // "Argument `permanent` is deprecated."

  /** `Union[str, bytes]` arguments. */
  datatype Body = Str(text: string) | Raw(bytes: Bytes)

  /** `data.encode("utf-8")` for text, the bytes themselves otherwise. */
  function EncodeBody(b: Body): Bytes {
    match b
    case Str(t) => Encode(t)
    case Raw(x) => x
  }

  /** Which Python class a response object is, with the state that class adds. */
  datatype Variant =
    | Plain                                       // BaseResponse
    | Buffered(buffer: IBytesIO)                  // Response, JSONResponse, TextResponse, RedirectResponse
    | FileObj(file: FileObject, start: Option<nat>)  // FileObjResponse; `start` is `__pos`, unset when not seekable
    | Generator(chunks: seq<Bytes>)               // GeneratorResponse
    | StrGenerator(texts: seq<string>)            // StrGeneratorResponse, JSONGeneratorResponse
    | NoContent                                   // NoContentResponse, EmptyResponse, NotModifiedResponse
    | Declined                                    // Declined

  /** What a render hands back to the WSGI server. */
  datatype Payload =
    | EmptyBytes                                  // b''
    | EmptyTuple                                  // ()
    | Stream(buffer: IBytesIO)
    | File(file: FileObject)
    | Chunks(chunks: seq<Bytes>)

  /** The two arguments passed to `start_response`. */
  datatype StartResponseCall = StartResponseCall(status: string, headers: seq<Header>)

  /** One call of a response: the `start_response` call made (if any), the warnings
      logged, and the returned payload or the raised exception. */
  datatype RenderResult = RenderResult(started: Option<StartResponseCall>, warnings: seq<Warning>,
                                       outcome: Result<Payload, Error>)

  /** The `headers` constructor argument: `None` means the default header set. */
  function InitialHeaders(headers: Option<seq<Header>>): seq<Header> {
    headers.GetOr(DEFAULT_HEADERS)
  }

  // ------------------------------------------------------- content types

  /** `mime` followed by `"; charset=" + charset` when the charset is not empty. */
  function WithCharset(mime: string, charset: string): string {
    if charset != "" then mime + "; charset=" + charset else mime
  }

  /** The media type of a content-type value: everything before the first `;`. */
  function MediaType(contentType: string): string {
    if ';' in contentType then contentType[..IndexOf(contentType, ';')] else contentType
  }

  /** The charset parameter of a content-type value, or "" when it has none. */
  function Charset(contentType: string): string {
    if ';' !in contentType then ""
    else
      var rest := contentType[IndexOf(contentType, ';')..];
      if |rest| >= 10 && rest[..10] == "; charset=" then rest[10..] else ""
  }

  /** The content type `JSONResponse`, `TextResponse` and `JSONGeneratorResponse` build
      can be taken apart again into the media type and the charset given. */
  lemma WithCharsetParts(mime: string, charset: string)
    requires ';' !in mime
    ensures MediaType(WithCharset(mime, charset)) == mime
    ensures Charset(WithCharset(mime, charset)) == charset
  {
    var ct := WithCharset(mime, charset);
    if charset != "" {
      assert ct[|mime|] == ';';
      var k := IndexOf(ct, ';');
      assert ct[..|mime|] == mime;
      assert k == |mime|;
      assert ct[k..] == "; charset=" + charset;
    }
  }

  // ------------------------------------------------------- header rules

  /** `BaseResponse.__start_response__`'s rule for a status other than 304: the headers
      stay in front, and at most a `Content-Type` and a `Content-Length` header follow. */
  function InjectRepresentationHeaders(h: seq<Header>, contentType: string, contentLength: int): (r: seq<Header>)
    ensures |h| <= |r| <= |h| + 2 && r[..|h|] == h
  {
    var withType := if contentType != "" && !HasNonEmpty(h, CONTENT_TYPE)
                    then Add(h, CONTENT_TYPE, contentType) else h;
    if contentLength != 0 && !HasNonEmpty(h, CONTENT_LENGTH)
    then Add(withType, CONTENT_LENGTH, IntToString(contentLength)) else withType
  }

  /** Which headers injection appends: `Content-Type` with the content type exactly when
      that is not empty and the headers hold no non-empty `Content-Type`, then
      `Content-Length` with `str(content_length)` exactly when the length is not zero and
      the headers hold no non-empty `Content-Length`. */
  lemma InjectAppends(h: seq<Header>, contentType: string, contentLength: int)
    ensures var r := InjectRepresentationHeaders(h, contentType, contentLength);
      var addType := contentType != "" && !HasNonEmpty(h, CONTENT_TYPE);
      var addLength := contentLength != 0 && !HasNonEmpty(h, CONTENT_LENGTH);
      && |r| == |h| + (if addType then 1 else 0) + (if addLength then 1 else 0)
      && (addType ==> r[|h|] == (CONTENT_TYPE, contentType))
      && (addLength ==> r[|r| - 1] == (CONTENT_LENGTH, IntToString(contentLength)))
  {
  }

  lemma ContentNamesDiffer()
    ensures !NameEq(CONTENT_TYPE, CONTENT_LENGTH) && !NameEq(CONTENT_LENGTH, CONTENT_TYPE)
  {
    assert |CONTENT_TYPE| != |CONTENT_LENGTH|;
  }

  /** What the headers answer for `Content-Type` after injection: a non-empty value
      already there is kept, no content type changes nothing, and an absent header
      becomes the response's content type. */
  lemma InjectContentType(h: seq<Header>, contentType: string, contentLength: int)
    ensures var r := InjectRepresentationHeaders(h, contentType, contentLength);
      && (HasNonEmpty(h, CONTENT_TYPE) ==> Get(r, CONTENT_TYPE) == Get(h, CONTENT_TYPE))
      && (contentType == "" ==> Get(r, CONTENT_TYPE) == Get(h, CONTENT_TYPE))
      && (contentType != "" && !Contains(h, CONTENT_TYPE) ==> Get(r, CONTENT_TYPE) == Some(contentType))
  {
    ContentNamesDiffer();
    var withType := if contentType != "" && !HasNonEmpty(h, CONTENT_TYPE)
                    then Add(h, CONTENT_TYPE, contentType) else h;
    GetAfterAdd(h, CONTENT_TYPE, contentType, CONTENT_TYPE);
    GetAfterAdd(withType, CONTENT_LENGTH, IntToString(contentLength), CONTENT_TYPE);
  }

  /** The same for `Content-Length`; an added value reads back as the length. */
  lemma InjectContentLength(h: seq<Header>, contentType: string, contentLength: int)
    ensures var r := InjectRepresentationHeaders(h, contentType, contentLength);
      && (HasNonEmpty(h, CONTENT_LENGTH) ==> Get(r, CONTENT_LENGTH) == Get(h, CONTENT_LENGTH))
      && (contentLength == 0 ==> Get(r, CONTENT_LENGTH) == Get(h, CONTENT_LENGTH))
      && (contentLength != 0 && !Contains(h, CONTENT_LENGTH) ==>
            Get(r, CONTENT_LENGTH) == Some(IntToString(contentLength))
            && ParseInt(Get(r, CONTENT_LENGTH).value) == Some(contentLength))
  {
    ContentNamesDiffer();
    var withType := if contentType != "" && !HasNonEmpty(h, CONTENT_TYPE)
                    then Add(h, CONTENT_TYPE, contentType) else h;
    GetAfterAdd(h, CONTENT_TYPE, contentType, CONTENT_LENGTH);
    GetAfterAdd(withType, CONTENT_LENGTH, IntToString(contentLength), CONTENT_LENGTH);
    IntToStringRoundTrip(contentLength);
  }

  /** Injecting twice adds nothing the second time, as long as no header holds an empty
      `Content-Type` or `Content-Length` value (such a header hides the added one from `get`). */
  lemma InjectIdempotent(h: seq<Header>, contentType: string, contentLength: int)
    requires Get(h, CONTENT_TYPE) != Some("") && Get(h, CONTENT_LENGTH) != Some("")
    ensures var r := InjectRepresentationHeaders(h, contentType, contentLength);
      InjectRepresentationHeaders(r, contentType, contentLength) == r
  {
    var r := InjectRepresentationHeaders(h, contentType, contentLength);
    InjectContentType(h, contentType, contentLength);
    InjectContentLength(h, contentType, contentLength);
    assert contentType != "" ==> HasNonEmpty(r, CONTENT_TYPE);
    assert contentLength != 0 ==> HasNonEmpty(r, CONTENT_LENGTH);
  }

  /** The default header set holds neither a `Content-Type` nor a `Content-Length`. */
  lemma DefaultHeadersHoldNoContentHeaders()
    ensures !Contains(DEFAULT_HEADERS, CONTENT_TYPE) && !Contains(DEFAULT_HEADERS, CONTENT_LENGTH)
  {
    var name := DEFAULT_HEADERS[0].0;
    assert LowerChar(name[0]) == 'x' && LowerChar(CONTENT_TYPE[0]) == 'c';
    assert |name| != |CONTENT_LENGTH|;
    assert !NameEq(name, CONTENT_TYPE) && !NameEq(name, CONTENT_LENGTH);
    GetFirstMatch(DEFAULT_HEADERS, CONTENT_TYPE);
    GetFirstMatch(DEFAULT_HEADERS, CONTENT_LENGTH);
  }

  /** Headers holding neither representation header get both appended, when the
      response has a content type and a non-zero length. */
  lemma InjectIntoBareHeaders(h: seq<Header>, contentType: string, contentLength: int)
    requires !Contains(h, CONTENT_TYPE) && !Contains(h, CONTENT_LENGTH)
    requires contentType != "" && contentLength != 0
    ensures InjectRepresentationHeaders(h, contentType, contentLength)
            == h + [(CONTENT_TYPE, contentType), (CONTENT_LENGTH, IntToString(contentLength))]
  {
    var r := InjectRepresentationHeaders(h, contentType, contentLength);
    InjectAppends(h, contentType, contentLength);
    assert r == r[..|h|] + [r[|h|], r[|h| + 1]];
  }

  /** The warnings `__start_response__` logs for a 304 response whose header names are
      `keys` (names compared exactly, as Python sets do): one when some name is a
      representation header, one when no name is one of the required ones. */
  function NotModifiedWarnings(keys: seq<string>): (w: seq<Warning>)
    ensures RepresentationHeaderIn304 in w <==> exists i :: 0 <= i < |keys| && keys[i] in NOT_MODIFIED_DENY
    ensures MissingRequiredHeaderIn304 in w <==>
              forall i :: 0 <= i < |keys| ==> keys[i] !in NOT_MODIFIED_ONE_OF_REQUIRED
    ensures |w| == (if RepresentationHeaderIn304 in w then 1 else 0) + (if MissingRequiredHeaderIn304 in w then 1 else 0)
    ensures forall x :: x in w ==> x == RepresentationHeaderIn304 || x == MissingRequiredHeaderIn304
  {
    var denied := exists i :: 0 <= i < |keys| && keys[i] in NOT_MODIFIED_DENY;
    var required := exists i :: 0 <= i < |keys| && keys[i] in NOT_MODIFIED_ONE_OF_REQUIRED;
    (if denied then [RepresentationHeaderIn304] else [])
    + (if !required then [MissingRequiredHeaderIn304] else [])
  }

  /** The header set after `BaseResponse.__start_response__`: a 304 keeps it, anything
      else gets the representation headers injected. */
  function StartHeaders(status: int, contentType: string, contentLength: int, h: seq<Header>): seq<Header> {
    if status == State.HTTP_NOT_MODIFIED then h else InjectRepresentationHeaders(h, contentType, contentLength)
  }

  /** The warnings `BaseResponse.__start_response__` logs. */
  function StartWarnings(status: int, h: seq<Header>): seq<Warning> {
    if status == State.HTTP_NOT_MODIFIED then NotModifiedWarnings(Keys(h)) else []
  }

  /** A 304 in the base render leaves the headers as they are; any other status only
      appends; only a 304 logs warnings. */
  lemma StartHeadersRules(status: int, contentType: string, contentLength: int, h: seq<Header>)
    ensures status == State.HTTP_NOT_MODIFIED ==> StartHeaders(status, contentType, contentLength, h) == h
    ensures status != State.HTTP_NOT_MODIFIED ==> StartWarnings(status, h) == []
    ensures var r := StartHeaders(status, contentType, contentLength, h); |r| >= |h| && r[..|h|] == h
  {
  }

  /** `(it.encode("utf-8") for it in texts)` */
  function EncodeAll(texts: seq<string>): seq<Bytes> {
    seq(|texts|, i requires 0 <= i < |texts| => Encode(texts[i]))
  }

  /** A `StrGeneratorResponse` streams, chunk for chunk, the UTF-8 encoding of its texts:
      as many chunks as texts, each the encoding of one, joining to the encoding of the
      whole text. */
  lemma StrGeneratorEncoding(texts: seq<string>)
    ensures |EncodeAll(texts)| == |texts|
    ensures forall i :: 0 <= i < |texts| ==> Decode(EncodeAll(texts)[i]) == Some(texts[i])
    ensures Flatten(EncodeAll(texts)) == Encode(Concat(texts))
  {
    forall i | 0 <= i < |texts| ensures Decode(EncodeAll(texts)[i]) == Some(texts[i]) {
      DecodeEncode(texts[i]);
    }
    EncodeConcat(texts);
  }

  // ------------------------------------------------------- the byte buffer of Response

  /** A `Response`'s buffer contents, stream position and `__content_length`. */
  datatype BufferState = BufferState(bytes: Bytes, pos: nat, length: int) {
    ghost predicate Valid() {
      pos <= |bytes| <= length
    }
  }

  /** `Response.write(d)`: the length grows by the size of `d`, the buffer is written at
      its position. */
  function WriteStep(s: BufferState, d: Bytes): (t: BufferState)
    requires s.pos <= |s.bytes|
    ensures s.Valid() ==> t.Valid()
    ensures t.length - s.length == |d| && t.pos - s.pos == |d|
  {
    BufferState(Overwrite(s.bytes, s.pos, d), s.pos + |d|, s.length + |d|)
  }

  /** The buffer after the writes `ws` in turn. */
  function Replay(s: BufferState, ws: seq<Bytes>): (t: BufferState)
    requires s.Valid()
    ensures t.Valid()
    decreases |ws|
  {
    if ws == [] then s else Replay(WriteStep(s, ws[0]), ws[1..])
  }

  /** With the position at the end of the buffer, writes append: the buffer gains their
      concatenation and the length its size. */
  lemma {:induction false} WritesAppend(s: BufferState, ws: seq<Bytes>)
    requires s.Valid() && s.pos == |s.bytes|
    ensures Replay(s, ws) == BufferState(s.bytes + Flatten(ws), |s.bytes| + |Flatten(ws)|,
                                         s.length + |Flatten(ws)|)
    decreases |ws|
  {
    if ws != [] {
      var t := WriteStep(s, ws[0]);
      OverwriteAtEnd(s.bytes, ws[0]);
      WritesAppend(t, ws[1..]);
      assert s.bytes + ws[0] + Flatten(ws[1..]) == s.bytes + Flatten(ws);
    }
  }

  /** A `Response` built from empty data and written `w1 .. wn` holds their
      concatenation, and its `content_length` is the size of it. */
  lemma WritesFromEmpty(ws: seq<Bytes>)
    ensures Replay(BufferState([], 0, 0), ws).bytes == Flatten(ws)
    ensures Replay(BufferState([], 0, 0), ws).length == |Flatten(ws)|
  {
    WritesAppend(BufferState([], 0, 0), ws);
  }

  /** A `Response` built from non-empty data is positioned at 0, so a write overwrites the
      front of the data while `content_length` still grows: `Response(b"abc")` written
      `b"d"` holds `b"dbc"` with a `content_length` of 4. */
  lemma WriteAfterInitialDataOverwrites()
    ensures Replay(BufferState([97, 98, 99], 0, 3), [[100]]) == BufferState([100, 98, 99], 1, 4)
  {
    var t := WriteStep(BufferState([97, 98, 99], 0, 3), [100]);
    assert t.bytes == [100, 98, 99];
  }

  // ------------------------------------------------------- argument rules

  /** The value `JSONResponse` hands to `json.dumps`. */
  datatype JsonArg<J> = JsonNone | JsonData(data: J) | JsonKwargs(kwargs: map<string, J>)

  /** `JSONResponse` refuses data together with keyword arguments; otherwise it serialises
      the keyword arguments when there are any and the data (possibly `None`) when not. */
  function JsonArgument<J>(data: Option<J>, kwargs: map<string, J>): (r: Result<JsonArg<J>, Error>)
    ensures r.Failure? <==> |kwargs| > 0 && data.Some?
    ensures r.Failure? ==> r.error == RuntimeError(DATA_AND_KWARGS)
    ensures r.Success? && |kwargs| > 0 ==> r.value == JsonKwargs(kwargs)
    ensures r.Success? && data.Some? ==> r.value == JsonData(data.value)
    ensures r.Success? ==> (r.value == JsonNone <==> |kwargs| == 0 && data.None?)
  {
    if |kwargs| > 0 && data.Some? then Failure(RuntimeError(DATA_AND_KWARGS))
    else if |kwargs| > 0 then Success(JsonKwargs(kwargs))
    else if data.Some? then Success(JsonData(data.value))
    else Success(JsonNone)
  }

  /** `RedirectResponse`'s `status_code` argument, which may be a flag. */
  datatype StatusArg = Code(code: int) | Flag(flag: bool)

  /** The status a `RedirectResponse` is built with: 301 when `status_code is True` or
      `permanent` is set, otherwise the code given (`False` counts as 0). */
  function RedirectStatus(arg: StatusArg, permanent: bool): (code: int)
    ensures permanent || arg == Flag(true) ==> code == State.HTTP_MOVED_PERMANENTLY
    ensures !permanent && arg.Code? ==> code == arg.code
    ensures !permanent && arg == Flag(false) ==> code == 0 && !StatusTable.Registered(code)
  {
    if arg == Flag(true) || permanent then State.HTTP_MOVED_PERMANENTLY
    else match arg
      case Code(c) => c
      case Flag(_) => 0
  }

  /** The `date` argument of `NotModifiedResponse`. */
  datatype DateArg<D> = NoDate | DateText(text: string) | DateEpoch(seconds: int) | DateValue(value: D)

  /** `h` with `(name, value)` added when `given`. */
  function AddWhen(h: seq<Header>, given: bool, name: string, value: string): seq<Header> {
    if given then Add(h, name, value) else h
  }

  /** What `get` answers after an `AddWhen`: unchanged for another name or when nothing is
      added, the added value for a matching name the headers lacked. */
  lemma GetAfterAddWhen(h: seq<Header>, given: bool, n: string, v: string, name: string)
    ensures !given || !NameEq(n, name) ==> Get(AddWhen(h, given, n, v), name) == Get(h, name)
    ensures given && NameEq(n, name) && !Contains(h, name) ==> Get(AddWhen(h, given, n, v), name) == Some(v)
  {
    GetAfterAdd(h, n, v, name);
  }

  /** The value of the `Date` header `NotModifiedResponse` adds: a non-empty string as is,
      a number through `time_to_http`, a datetime through `datetime_to_http`; nothing for
      no date or an empty string. */
  function DateHeader<D>(date: DateArg<D>, timeToHttp: int -> string, datetimeToHttp: D -> string): Option<string> {
    match date
    case NoDate => None
    case DateText(s) => if s != "" then Some(s) else None
    case DateEpoch(t) => Some(timeToHttp(t))
    case DateValue(v) => Some(datetimeToHttp(v))
  }

  /** The headers `NotModifiedResponse` adds, in order: `E-Tag`, `Content-Location`, `Date`
      and `Vary`, each only when given. */
  function NotModifiedHeaders<D>(h: seq<Header>, etag: string, contentLocation: string, date: DateArg<D>,
                                 vary: string, timeToHttp: int -> string, datetimeToHttp: D -> string): (r: seq<Header>)
    ensures |r| >= |h| && r[..|h|] == h
    ensures |r| == |h| + (if etag != "" then 1 else 0) + (if contentLocation != "" then 1 else 0)
                       + (if DateHeader(date, timeToHttp, datetimeToHttp).Some? then 1 else 0)
                       + (if vary != "" then 1 else 0)
  {
    var d := DateHeader(date, timeToHttp, datetimeToHttp);
    var withTag := AddWhen(h, etag != "", "E-Tag", etag);
    var withLocation := AddWhen(withTag, contentLocation != "", "Content-Location", contentLocation);
    var withDate := AddWhen(withLocation, d.Some?, "Date", d.GetOr(""));
    AddWhen(withDate, vary != "", "Vary", vary)
  }

  /** The four names `NotModifiedResponse` adds are pairwise different, ignoring case. */
  lemma NotModifiedNamesDiffer()
    ensures !NameEq("E-Tag", "Content-Location") && !NameEq("E-Tag", "Date") && !NameEq("E-Tag", "Vary")
    ensures !NameEq("Content-Location", "E-Tag") && !NameEq("Content-Location", "Date")
    ensures !NameEq("Content-Location", "Vary")
    ensures !NameEq("Date", "E-Tag") && !NameEq("Date", "Content-Location") && !NameEq("Date", "Vary")
    ensures !NameEq("Vary", "E-Tag") && !NameEq("Vary", "Content-Location") && !NameEq("Vary", "Date")
  {
    assert LowerChar("Date"[0]) != LowerChar("Vary"[0]);
  }

  /** `E-Tag` is the first header appended, exactly when an etag is given; `get('E-Tag')`
      then answers it unless the headers already had one, and is unchanged otherwise. */
  lemma NotModifiedETagHeader<D>(h: seq<Header>, etag: string, contentLocation: string, date: DateArg<D>,
                                 vary: string, timeToHttp: int -> string, datetimeToHttp: D -> string)
    ensures var r := NotModifiedHeaders(h, etag, contentLocation, date, vary, timeToHttp, datetimeToHttp);
      && (etag != "" <==> |r| > |h| && r[|h|] == ("E-Tag", etag))
      && (etag != "" && !Contains(h, "E-Tag") ==> Get(r, "E-Tag") == Some(etag))
      && (etag == "" ==> Get(r, "E-Tag") == Get(h, "E-Tag"))
  {
    var d := DateHeader(date, timeToHttp, datetimeToHttp);
    var withTag := AddWhen(h, etag != "", "E-Tag", etag);
    var withLocation := AddWhen(withTag, contentLocation != "", "Content-Location", contentLocation);
    var withDate := AddWhen(withLocation, d.Some?, "Date", d.GetOr(""));
    var r := AddWhen(withDate, vary != "", "Vary", vary);
    NotModifiedNamesDiffer();
    assert NameEq("E-Tag", "E-Tag");
    GetAfterAddWhen(h, etag != "", "E-Tag", etag, "E-Tag");
    GetAfterAddWhen(withTag, contentLocation != "", "Content-Location", contentLocation, "E-Tag");
    GetAfterAddWhen(withLocation, d.Some?, "Date", d.GetOr(""), "E-Tag");
    GetAfterAddWhen(withDate, vary != "", "Vary", vary, "E-Tag");
    if etag == "" && |r| > |h| {
      assert r[|h|].0 in {"Content-Location", "Date", "Vary"};
    }
  }

  /** `Content-Location` is added when given: `get` then answers it unless the headers
      already had one, and is unchanged when it is not given. */
  lemma NotModifiedLocationHeader<D>(h: seq<Header>, etag: string, contentLocation: string, date: DateArg<D>,
                                     vary: string, timeToHttp: int -> string, datetimeToHttp: D -> string)
    ensures var r := NotModifiedHeaders(h, etag, contentLocation, date, vary, timeToHttp, datetimeToHttp);
      && (contentLocation != "" && !Contains(h, "Content-Location") ==>
            Get(r, "Content-Location") == Some(contentLocation))
      && (contentLocation == "" ==> Get(r, "Content-Location") == Get(h, "Content-Location"))
  {
    var d := DateHeader(date, timeToHttp, datetimeToHttp);
    var withTag := AddWhen(h, etag != "", "E-Tag", etag);
    var withLocation := AddWhen(withTag, contentLocation != "", "Content-Location", contentLocation);
    var withDate := AddWhen(withLocation, d.Some?, "Date", d.GetOr(""));
    NotModifiedNamesDiffer();
    assert NameEq("Content-Location", "Content-Location");
    GetAfterAddWhen(h, etag != "", "E-Tag", etag, "Content-Location");
    GetAfterAddWhen(withTag, contentLocation != "", "Content-Location", contentLocation, "Content-Location");
    GetAfterAddWhen(withLocation, d.Some?, "Date", d.GetOr(""), "Content-Location");
    GetAfterAddWhen(withDate, vary != "", "Vary", vary, "Content-Location");
  }

  /** `Date` is added for a non-empty string as is, for a number through `time_to_http`
      and for a datetime through `datetime_to_http`; `get('Date')` then answers that value
      unless the headers already had one, and is unchanged for no date or an empty string. */
  lemma NotModifiedDateHeader<D>(h: seq<Header>, etag: string, contentLocation: string, date: DateArg<D>,
                                 vary: string, timeToHttp: int -> string, datetimeToHttp: D -> string)
    ensures var r := NotModifiedHeaders(h, etag, contentLocation, date, vary, timeToHttp, datetimeToHttp);
      && (date.DateText? && date.text != "" && !Contains(h, "Date") ==> Get(r, "Date") == Some(date.text))
      && (date.DateEpoch? && !Contains(h, "Date") ==> Get(r, "Date") == Some(timeToHttp(date.seconds)))
      && (date.DateValue? && !Contains(h, "Date") ==> Get(r, "Date") == Some(datetimeToHttp(date.value)))
      && (date == NoDate || date == DateText("") ==> Get(r, "Date") == Get(h, "Date"))
  {
    var d := DateHeader(date, timeToHttp, datetimeToHttp);
    var withTag := AddWhen(h, etag != "", "E-Tag", etag);
    var withLocation := AddWhen(withTag, contentLocation != "", "Content-Location", contentLocation);
    var withDate := AddWhen(withLocation, d.Some?, "Date", d.GetOr(""));
    NotModifiedNamesDiffer();
    assert NameEq("Date", "Date");
    GetAfterAddWhen(h, etag != "", "E-Tag", etag, "Date");
    GetAfterAddWhen(withTag, contentLocation != "", "Content-Location", contentLocation, "Date");
    GetAfterAddWhen(withLocation, d.Some?, "Date", d.GetOr(""), "Date");
    GetAfterAddWhen(withDate, vary != "", "Vary", vary, "Date");
  }

  /** `Vary` is added last when given: `get('Vary')` then answers it unless the headers
      already had one, and is unchanged when it is not given. */
  lemma NotModifiedVaryHeader<D>(h: seq<Header>, etag: string, contentLocation: string, date: DateArg<D>,
                                 vary: string, timeToHttp: int -> string, datetimeToHttp: D -> string)
    ensures var r := NotModifiedHeaders(h, etag, contentLocation, date, vary, timeToHttp, datetimeToHttp);
      && (vary != "" ==> r[|r| - 1] == ("Vary", vary))
      && (vary != "" && !Contains(h, "Vary") ==> Get(r, "Vary") == Some(vary))
      && (vary == "" ==> Get(r, "Vary") == Get(h, "Vary"))
  {
    var d := DateHeader(date, timeToHttp, datetimeToHttp);
    var withTag := AddWhen(h, etag != "", "E-Tag", etag);
    var withLocation := AddWhen(withTag, contentLocation != "", "Content-Location", contentLocation);
    var withDate := AddWhen(withLocation, d.Some?, "Date", d.GetOr(""));
    NotModifiedNamesDiffer();
    assert NameEq("Vary", "Vary");
    GetAfterAddWhen(h, etag != "", "E-Tag", etag, "Vary");
    GetAfterAddWhen(withTag, contentLocation != "", "Content-Location", contentLocation, "Vary");
    GetAfterAddWhen(withLocation, d.Some?, "Date", d.GetOr(""), "Vary");
    GetAfterAddWhen(withDate, vary != "", "Vary", vary, "Vary");
  }

  /** The entity tag goes in under the name `E-Tag`, which is not the `ETag` the 304 rules
      look for: with only an etag given to headers holding none of the required names,
      the base 304 check would still report the required header missing. */
  lemma NotModifiedETagName<D>(h: seq<Header>, etag: string, timeToHttp: int -> string, datetimeToHttp: D -> string)
    requires etag != ""
    requires forall i :: 0 <= i < |h| ==> h[i].0 !in NOT_MODIFIED_ONE_OF_REQUIRED
    ensures var r := NotModifiedHeaders(h, etag, "", NoDate, "", timeToHttp, datetimeToHttp);
      && r == h + [("E-Tag", etag)]
      && MissingRequiredHeaderIn304 in NotModifiedWarnings(Keys(r))
  {
    var r := NotModifiedHeaders(h, etag, "", NoDate, "", timeToHttp, datetimeToHttp);
    assert forall i :: 0 <= i < |r| ==> Keys(r)[i] !in NOT_MODIFIED_ONE_OF_REQUIRED by {
      forall i | 0 <= i < |r| ensures Keys(r)[i] !in NOT_MODIFIED_ONE_OF_REQUIRED {
        if i < |h| {
          assert r[i] == h[i];
        }
      }
    }
  }

  // ------------------------------------------------------- the response object

  /** A response object: every Python class of the hierarchy, told apart by `variant`. */
  class BaseResponse {
    const variant: Variant
    var contentType: string          // `content_type`
    var headerList: seq<Header>      // `__headers`
    var status: int                  // `__status_code`
    var reason: string               // `__reason`
    var length: int                  // `__content_length` of Response and FileObjResponse
    var done: bool                   // `__done`

    /** The stream objects this response owns. */
    ghost function Footprint(): set<object> {
      match variant
      case Buffered(b) => {b}
      case FileObj(f, _) => {f}
      case _ => {}
    }

    /** The status and reason come from the status table; a buffer's length counts at
        least its bytes; a file response keeps its start offset exactly when the file is
        seekable, and knows its length only with a known size. */
    ghost predicate Valid()
      reads this, Footprint()
    {
      && StatusTable.Reason(status) == Some(reason)
      && match variant
         case Buffered(b) => b.Valid() && |b.bytes| <= length
         case FileObj(f, start) =>
           && f.readable && f.binary
           && (start.Some? <==> f.seekable)
           && (f.sizeKnown ==> f.seekable)
           && length == (if f.sizeKnown then |f.content| - start.value else 0)
         case _ => length == 0
    }

    /** `isinstance(self, Response)` */
    predicate IsResponse() {
      variant.Buffered?
    }

    /** What the object holds right after construction. */
    ghost predicate Created(ct: string, h: seq<Header>, code: int, len: int)
      reads this
    {
      contentType == ct && headerList == h && status == code && length == len && !done
    }

    constructor Init(v: Variant, ct: string, h: seq<Header>, code: int, len: int)
      requires StatusTable.Registered(code)
      ensures variant == v && Created(ct, h, code, len)
      ensures StatusTable.Reason(status) == Some(reason)
    {
      variant := v;
      contentType := ct;
      headerList := h;
      status := code;
      reason := StatusTable.Reason(code).value;
      length := len;
      done := false;
    }

    /** The `headers` property: `Declined` always answers an empty header set, whatever
        it stores; every other class answers the headers it stores. */
    function HeadersProperty(): (r: seq<Header>)
      reads this
      ensures variant.Declined? ==> r == []
      ensures !variant.Declined? ==> r == headerList
    {
      if variant.Declined? then [] else headerList
    }

    /** The `content_length` property: the counted length of a buffer or file; the
        generator and no-content classes never report a length. */
    function ContentLength(): (r: int)
      reads this
      ensures variant.Buffered? || variant.FileObj? ==> r == length
      ensures !(variant.Buffered? || variant.FileObj?) ==> r == 0
    {
      match variant
      case Buffered(_) => length
      case FileObj(_, _) => length
      case _ => 0
    }

    /** A generator response reports no length, so its render never injects
        `Content-Length`: `get('Content-Length')` answers what the stored headers did. */
    lemma GeneratorSendsNoLength(h: seq<Header>)
      requires variant.Generator? || variant.StrGenerator?
      ensures ContentLength() == 0
      ensures Get(StartHeaders(status, contentType, ContentLength(), h), CONTENT_LENGTH) == Get(h, CONTENT_LENGTH)
    {
      InjectContentLength(h, contentType, 0);
    }

    /** What the `data` property returns: the whole buffer, the file from its start offset
        when it is seekable, nothing for the other classes. */
    ghost function Content(): Bytes
      reads this, Footprint()
      requires Valid()
    {
      match variant
      case Buffered(b) => b.bytes
      case FileObj(f, start) => if f.seekable then Remaining(f.content, start.value) else []
      case _ => []
    }

    /** The buffer state `Response.write` acts on. */
    ghost function Buffer(): BufferState
      reads this, Footprint()
      requires variant.Buffered?
    {
      BufferState(variant.buffer.bytes, variant.buffer.pos, length)
    }

    /** The `data` property. Reading it moves the stream but not the content. */
    method Data() returns (r: Bytes)
      requires Valid()
      modifies Footprint()
      ensures Valid()
      ensures r == old(Content()) && Content() == old(Content())
      ensures variant.Buffered? ==> variant.buffer.pos == |variant.buffer.bytes|
      ensures variant.FileObj? && variant.file.seekable ==> variant.file.pos == variant.start.value + |r|
      ensures variant.FileObj? && !variant.file.seekable ==> variant.file.pos == old(variant.file.pos)
    {
      match variant
      case Buffered(b) =>
        b.Rewind();
        r := b.Read();
      case FileObj(f, start) =>
        if f.seekable {
          f.Seek(start.value);
          r := f.Read();
        } else {
          r := [];
        }
      case _ =>
        r := [];
    }

    /** `Response.write(data)` */
    method Write(d: Body)
      requires Valid() && variant.Buffered?
      modifies this`length, variant.buffer
      ensures Valid()
      ensures Buffer() == WriteStep(old(Buffer()), EncodeBody(d))
    {
      var bytes := EncodeBody(d);
      length := length + |bytes|;
      variant.buffer.Write(bytes);
    }

    /** The `status_code` setter: an unregistered code raises ValueError and changes nothing;
        a registered one becomes the status, with its table reason. */
    method SetStatusCode(value: int) returns (o: Outcome<Error>)
      requires Valid()
      modifies this`status, this`reason
      ensures Valid()
      ensures StatusTable.Registered(value) ==> o == Pass && status == value
      ensures !StatusTable.Registered(value) ==>
                o == Fail(ValueError(value)) && status == old(status) && reason == old(reason)
    {
      var phrase := StatusTable.Reason(value);
      if phrase.None? {
        o := Fail(ValueError(value));
      } else {
        status := value;
        reason := phrase.value;
        o := Pass;
      }
    }

    /** The `headers` setter; `Declined` ignores it and logs a warning. */
    method SetHeaders(h: seq<Header>) returns (warnings: seq<Warning>)
      requires Valid()
      modifies this`headerList
      ensures Valid()
      ensures variant.Declined? ==> headerList == old(headerList) && warnings == [DeclinedHeaders]
      ensures !variant.Declined? ==> headerList == h && warnings == []
    {
      if variant.Declined? {
        warnings := [DeclinedHeaders];
      } else {
        headerList := h;
        warnings := [];
      }
    }

    /** `add_header(name, value)`; `Declined` ignores it and logs a warning. */
    method AddHeader(name: string, value: string) returns (warnings: seq<Warning>)
      requires Valid()
      modifies this`headerList
      ensures Valid()
      ensures variant.Declined? ==> headerList == old(headerList) && warnings == [DeclinedHeaders]
      ensures !variant.Declined? ==> headerList == Add(old(headerList), name, value) && warnings == []
    {
      if variant.Declined? {
        warnings := [DeclinedHeaders];
      } else {
        headerList := Add(headerList, name, value);
        warnings := [];
      }
    }

    /** `__start_response__`: the no-content group sends no headers at all; the others
        apply the 304 warnings or the representation header injection first. */
    method StartResponse() returns (call: StartResponseCall, warnings: seq<Warning>)
      requires Valid()
      modifies this`headerList
      ensures Valid()
      ensures variant.NoContent? || variant.Declined? ==>
                headerList == old(headerList) && warnings == []
                && call == StartResponseCall(StatusTable.StatusLine(status, reason), [])
      ensures !(variant.NoContent? || variant.Declined?) ==>
                && headerList == StartHeaders(status, contentType, ContentLength(), old(headerList))
                && warnings == StartWarnings(status, old(headerList))
                && call == StartResponseCall(StatusTable.StatusLine(status, reason), headerList)
    {
      if variant.NoContent? || variant.Declined? {
        warnings := [];
      } else {
        warnings := StartWarnings(status, headerList);
        headerList := StartHeaders(status, contentType, ContentLength(), headerList);
      }
      call := StartResponseCall(StatusTable.StatusLine(status, reason),
                                if variant.NoContent? || variant.Declined? then [] else headerList);
    }

    /** `__end_of_response__`: the payload, with a buffer rewound to 0 and a seekable file
        rewound to its start offset. */
    method EndOfResponse() returns (p: Payload)
      requires Valid()
      modifies Footprint()
      ensures Valid() && Content() == old(Content())
      ensures p == PayloadOf(variant)
      ensures variant.Buffered? ==> variant.buffer.pos == 0
      ensures variant.FileObj? && variant.file.seekable ==> variant.file.pos == variant.start.value
      ensures variant.FileObj? && !variant.file.seekable ==> variant.file.pos == old(variant.file.pos)
    {
      match variant {
        case Buffered(b) =>
          b.Rewind();
        case FileObj(f, start) =>
          if f.seekable {
            f.Seek(start.value);
          }
        case _ =>
      }
      p := PayloadOf(variant);
    }

    /** `__call__(start_response)`, with `startResponseRaises` saying whether the
        `start_response` callable raises. `Declined` answers an empty tuple and nothing
        else; any other response refuses a second call, and on the first is marked done
        even when `start_response` raises. */
    method Call(startResponseRaises: bool) returns (res: RenderResult)
      requires Valid()
      modifies this`headerList, this`done, Footprint()
      ensures Valid() && Content() == old(Content())
      ensures variant.Declined? ==>
                res == RenderResult(None, [], Success(EmptyTuple))
                && done == old(done) && headerList == old(headerList)
      ensures !variant.Declined? ==> done
      ensures !variant.Declined? && old(done) ==>
                res == RenderResult(None, [], Failure(RuntimeError(USED_TWICE))) && headerList == old(headerList)
      ensures !variant.Declined? && !old(done) && variant.NoContent? ==>
                && headerList == old(headerList) && res.warnings == []
                && res.started == Some(StartResponseCall(StatusTable.StatusLine(status, reason), []))
      ensures !variant.Declined? && !old(done) && !variant.NoContent? ==>
                && headerList == StartHeaders(status, contentType, ContentLength(), old(headerList))
                && res.warnings == StartWarnings(status, old(headerList))
                && res.started == Some(StartResponseCall(StatusTable.StatusLine(status, reason), headerList))
      ensures !variant.Declined? && !old(done) ==>
                res.outcome == if startResponseRaises then Failure(StartResponseError)
                               else Success(PayloadOf(variant))
      ensures !variant.Declined? && !old(done) && !startResponseRaises && variant.Buffered? ==>
                variant.buffer.pos == 0
      ensures !variant.Declined? && !old(done) && !startResponseRaises
              && variant.FileObj? && variant.file.seekable ==>
                variant.file.pos == variant.start.value
      ensures variant.FileObj? && !variant.file.seekable ==> variant.file.pos == old(variant.file.pos)
      ensures variant.Declined? || old(done) || startResponseRaises ==>
                && (variant.Buffered? ==> variant.buffer.pos == old(variant.buffer.pos))
                && (variant.FileObj? ==> variant.file.pos == old(variant.file.pos))
    {
      if variant.Declined? {
        res := RenderResult(None, [], Success(EmptyTuple));
        return;
      }
      if done {
        res := RenderResult(None, [], Failure(RuntimeError(USED_TWICE)));
        return;
      }
      var call, warnings := StartResponse();
      done := true;
      if startResponseRaises {
        res := RenderResult(Some(call), warnings, Failure(StartResponseError));
      } else {
        var payload := EndOfResponse();
        res := RenderResult(Some(call), warnings, Success(payload));
      }
    }

    /** A fresh `Response`-family object holding `bytes`, positioned at 0, with a
        `content_length` of their size. */
    ghost predicate HoldsBuffer(bytes: Bytes, ct: string, h: seq<Header>, code: int)
      reads this, Footprint()
    {
      && Valid() && variant.Buffered?
      && Created(ct, h, code, |bytes|)
      && Buffer() == BufferState(bytes, 0, |bytes|)
    }

    /** `BaseResponse.__init__` for any class: looking up the reason raises KeyError for an
        unregistered code; otherwise the object starts with the given headers (or the
        default set) and is not done. */
    static method Make(v: Variant, ct: string, headers: Option<seq<Header>>, code: int, len: int)
      returns (r: Result<BaseResponse, Error>)
      ensures r.Success? <==> StatusTable.Registered(code)
      ensures r.Failure? ==> r.error == KeyError(code)
      ensures r.Success? ==> fresh(r.value) && r.value.variant == v
                             && r.value.Created(ct, InitialHeaders(headers), code, len)
                             && StatusTable.Reason(r.value.status) == Some(r.value.reason)
    {
      if !StatusTable.Registered(code) {
        r := Failure(KeyError(code));
      } else {
        var o := new BaseResponse.Init(v, ct, InitialHeaders(headers), code, len);
        r := Success(o);
      }
    }

    /** `BaseResponse(content_type, headers, status_code)` */
    static method NewBase(ct: string, headers: Option<seq<Header>>, code: int)
      returns (r: Result<BaseResponse, Error>)
      ensures r.Success? <==> StatusTable.Registered(code)
      ensures r.Failure? ==> r.error == KeyError(code)
      ensures r.Success? ==> fresh(r.value) && r.value.Valid() && r.value.variant == Plain
                             && r.value.Created(ct, InitialHeaders(headers), code, 0)
    {
      r := Make(Plain, ct, headers, code, 0);
    }

    /** `Response(data, content_type, headers, status_code)`: the buffer holds the data
        (text encoded as UTF-8) and is positioned at its start. */
    static method NewResponse(data: Body, ct: string, headers: Option<seq<Header>>, code: int)
      returns (r: Result<BaseResponse, Error>)
      ensures r.Success? <==> StatusTable.Registered(code)
      ensures r.Failure? ==> r.error == KeyError(code)
      ensures r.Success? ==> fresh(r.value) && fresh(r.value.Footprint())
                             && r.value.HoldsBuffer(EncodeBody(data), ct, InitialHeaders(headers), code)
    {
      if !StatusTable.Registered(code) {
        r := Failure(KeyError(code));
        return;
      }
      var bytes := EncodeBody(data);
      var buffer := new IBytesIO(bytes);
      r := Make(Buffered(buffer), ct, headers, code, |bytes|);
    }

    /** `JSONResponse(data_, charset, headers, status_code, **kwargs)`: data together with
        keyword arguments raises RuntimeError before anything else; otherwise a `Response`
        holding the serialised argument, typed `application/json` with the charset. */
    static method NewJSON<J>(data: Option<J>, charset: string, headers: Option<seq<Header>>, code: int,
                             kwargs: map<string, J>, dumps: JsonArg<J> -> string)
      returns (r: Result<BaseResponse, Error>)
      ensures JsonArgument(data, kwargs).Failure? ==> r == Failure(RuntimeError(DATA_AND_KWARGS))
      ensures JsonArgument(data, kwargs).Success? ==> (r.Success? <==> StatusTable.Registered(code))
      ensures JsonArgument(data, kwargs).Success? && r.Failure? ==> r.error == KeyError(code)
      ensures r.Success? ==>
                && JsonArgument(data, kwargs).Success?
                && fresh(r.value) && fresh(r.value.Footprint())
                && r.value.HoldsBuffer(Encode(dumps(JsonArgument(data, kwargs).value)),
                                       WithCharset("application/json", charset), InitialHeaders(headers), code)
    {
      var arg := JsonArgument(data, kwargs);
      if arg.Failure? {
        r := Failure(arg.error);
        return;
      }
      r := NewResponse(Str(dumps(arg.value)), WithCharset("application/json", charset), headers, code);
    }

    /** `TextResponse(text, charset, headers, status_code)` */
    static method NewText(text: string, charset: string, headers: Option<seq<Header>>, code: int)
      returns (r: Result<BaseResponse, Error>)
      ensures r.Success? <==> StatusTable.Registered(code)
      ensures r.Failure? ==> r.error == KeyError(code)
      ensures r.Success? ==> fresh(r.value) && fresh(r.value.Footprint())
                             && r.value.HoldsBuffer(Encode(text), WithCharset("text/plain", charset),
                                                    InitialHeaders(headers), code)
    {
      r := NewResponse(Str(text), WithCharset("text/plain", charset), headers, code);
    }

    /** `FileObjResponse(file_obj, content_type, headers, status_code)`: the two assertions
        on the file, then the reason lookup; the start offset is the file's position when it
        is seekable; with a known size the length is the size minus that offset, and a
        non-seekable file of known size fails on the offset it never stored. */
    static method NewFileObj(file: FileObject, ct: Option<string>, headers: Option<seq<Header>>, code: int)
      returns (r: Result<BaseResponse, Error>)
      ensures !file.readable ==> r == Failure(AssertionError(""))
      ensures file.readable && !file.binary ==> r == Failure(AssertionError(NOT_BINARY))
      ensures file.readable && file.binary && !StatusTable.Registered(code) ==> r == Failure(KeyError(code))
      ensures file.readable && file.binary && StatusTable.Registered(code) && file.sizeKnown && !file.seekable ==>
                r == Failure(AttributeError(FILE_POS_ATTRIBUTE))
      ensures r.Success? <==> file.readable && file.binary && StatusTable.Registered(code)
                              && (file.sizeKnown ==> file.seekable)
      ensures r.Success? ==>
                && fresh(r.value) && r.value.Valid()
                && r.value.variant == FileObj(file, if file.seekable then Some(file.pos) else None)
                && r.value.Created(ct.GetOr(OCTET_STREAM), InitialHeaders(headers), code,
                                   if file.sizeKnown then |file.content| - file.pos else 0)
    {
      if !file.readable {
        r := Failure(AssertionError(""));
        return;
      }
      if !file.binary {
        r := Failure(AssertionError(NOT_BINARY));
        return;
      }
      var contentType := ct.GetOr(OCTET_STREAM);
      if !StatusTable.Registered(code) {
        r := Failure(KeyError(code));
        return;
      }
      var start: Option<nat> := None;
      if file.seekable {
        var p := file.Tell();
        start := Some(p);
      }
      var len: int := 0;
      if file.sizeKnown {
        if start.None? {
          r := Failure(AttributeError(FILE_POS_ATTRIBUTE));
          return;
        }
        len := |file.content| - start.value;
      }
      r := Make(FileObj(file, start), contentType, headers, code, len);
    }

    /** `GeneratorResponse(generator, content_type, headers, status_code)` */
    static method NewGenerator(chunks: seq<Bytes>, ct: string, headers: Option<seq<Header>>, code: int)
      returns (r: Result<BaseResponse, Error>)
      ensures r.Success? <==> StatusTable.Registered(code)
      ensures r.Failure? ==> r.error == KeyError(code)
      ensures r.Success? ==> fresh(r.value) && r.value.Valid() && r.value.variant == Generator(chunks)
                             && r.value.Created(ct, InitialHeaders(headers), code, 0)
    {
      r := Make(Generator(chunks), ct, headers, code, 0);
    }

    /** `StrGeneratorResponse(generator, content_type, headers, status_code)` */
    static method NewStrGenerator(texts: seq<string>, ct: string, headers: Option<seq<Header>>, code: int)
      returns (r: Result<BaseResponse, Error>)
      ensures r.Success? <==> StatusTable.Registered(code)
      ensures r.Failure? ==> r.error == KeyError(code)
      ensures r.Success? ==> fresh(r.value) && r.value.Valid() && r.value.variant == StrGenerator(texts)
                             && r.value.Created(ct, InitialHeaders(headers), code, 0)
    {
      r := Make(StrGenerator(texts), ct, headers, code, 0);
    }

    /** `JSONGeneratorResponse(charset, headers, status_code, **kwargs)`: without the
        optional JSON encoder it raises NotImplementedError; otherwise a
        `StrGeneratorResponse` over the encoder's pieces, typed `application/json`. */
    static method NewJSONGenerator<J>(charset: string, headers: Option<seq<Header>>, code: int,
                                      kwargs: map<string, J>, encoderAvailable: bool,
                                      iterencode: map<string, J> -> seq<string>)
      returns (r: Result<BaseResponse, Error>)
      ensures !encoderAvailable ==> r == Failure(NotImplementedError(NEEDS_SIMPLEJSON))
      ensures encoderAvailable ==> (r.Success? <==> StatusTable.Registered(code))
      ensures encoderAvailable && r.Failure? ==> r.error == KeyError(code)
      ensures r.Success? ==> && encoderAvailable && fresh(r.value) && r.value.Valid()
                             && r.value.variant == StrGenerator(iterencode(kwargs))
                             && r.value.Created(WithCharset("application/json", charset),
                                                InitialHeaders(headers), code, 0)
    {
      if !encoderAvailable {
        r := Failure(NotImplementedError(NEEDS_SIMPLEJSON));
        return;
      }
      r := NewStrGenerator(iterencode(kwargs), WithCharset("application/json", charset), headers, code);
    }

    /** `NoContentResponse(headers, status_code)`: no content type. */
    static method NewNoContent(headers: Option<seq<Header>>, code: int)
      returns (r: Result<BaseResponse, Error>)
      ensures r.Success? <==> StatusTable.Registered(code)
      ensures r.Failure? ==> r.error == KeyError(code)
      ensures r.Success? ==> fresh(r.value) && r.value.Valid() && r.value.variant == NoContent
                             && r.value.Created("", InitialHeaders(headers), code, 0)
    {
      r := Make(NoContent, "", headers, code, 0);
    }

    /** `EmptyResponse(status_code)`: a `NoContentResponse` with the default headers. */
    static method NewEmpty(code: int) returns (r: Result<BaseResponse, Error>)
      ensures r.Success? <==> StatusTable.Registered(code)
      ensures r.Failure? ==> r.error == KeyError(code)
      ensures r.Success? ==> fresh(r.value) && r.value.Valid() && r.value.variant == NoContent
                             && r.value.Created("", DEFAULT_HEADERS, code, 0)
    {
      r := NewNoContent(None, code);
    }

    /** `Declined(status_code)` */
    static method NewDeclined(code: int) returns (r: Result<BaseResponse, Error>)
      ensures r.Success? <==> StatusTable.Registered(code)
      ensures r.Failure? ==> r.error == KeyError(code)
      ensures r.Success? ==> fresh(r.value) && r.value.Valid() && r.value.variant == Declined
                             && r.value.Created("", DEFAULT_HEADERS, code, 0) && r.value.HeadersProperty() == []
    {
      r := Make(Declined, "", None, code, 0);
    }

    /** `NotModifiedResponse(headers, etag, content_location, date, vary)`: a 304 from the
        no-content group holding the headers `NotModifiedHeaders` adds. It cannot fail. */
    static method NewNotModified<D>(headers: Option<seq<Header>>, etag: string, contentLocation: string,
                                    date: DateArg<D>, vary: string,
                                    timeToHttp: int -> string, datetimeToHttp: D -> string)
      returns (r: BaseResponse)
      ensures fresh(r) && r.Valid() && r.variant == NoContent
      ensures r.Created("", NotModifiedHeaders(InitialHeaders(headers), etag, contentLocation, date, vary,
                                               timeToHttp, datetimeToHttp), State.HTTP_NOT_MODIFIED, 0)
    {
      StatusTable.RegisteredConstants();
      var h := NotModifiedHeaders(InitialHeaders(headers), etag, contentLocation, date, vary,
                                  timeToHttp, datetimeToHttp);
      var made := Make(NoContent, "", Some(h), State.HTTP_NOT_MODIFIED, 0);
      r := made.value;
    }

    /** `RedirectResponse(location, status_code, message, headers, permanent)`: a
        `text/plain` `Response` holding the message, with the status `RedirectStatus`
        chooses and a `Location` header appended; the `permanent` form logs a warning. */
    static method NewRedirect(location: string, arg: StatusArg, message: Body,
                              headers: Option<seq<Header>>, permanent: bool)
      returns (r: Result<BaseResponse, Error>, warnings: seq<Warning>)
      ensures warnings == if arg == Flag(true) || permanent then [PermanentDeprecated] else []
      ensures r.Success? <==> StatusTable.Registered(RedirectStatus(arg, permanent))
      ensures r.Failure? ==> r.error == KeyError(RedirectStatus(arg, permanent))
      ensures r.Success? ==> fresh(r.value) && fresh(r.value.Footprint())
                             && r.value.HoldsBuffer(EncodeBody(message), "text/plain",
                                                    Add(InitialHeaders(headers), "Location", location),
                                                    RedirectStatus(arg, permanent))
    {
      var code := RedirectStatus(arg, permanent);
      warnings := if arg == Flag(true) || permanent then [PermanentDeprecated] else [];
      r := NewResponse(message, "text/plain", headers, code);
      if r.Success? {
        var ignored := r.value.AddHeader("Location", location);
      }
    }
  }

  /** The payload `__end_of_response__` returns for each class: the response's own buffer
      or file object, the generator's chunks, the encoded texts, or `b''`; never `()`. */
  function PayloadOf(v: Variant): (r: Payload)
    ensures v.Buffered? ==> r == Stream(v.buffer)
    ensures v.FileObj? ==> r == File(v.file)
    ensures v.Generator? ==> r == Chunks(v.chunks)
    ensures v.StrGenerator? ==>
              r.Chunks? && |r.chunks| == |v.texts|
              && (forall i :: 0 <= i < |v.texts| ==> Decode(r.chunks[i]) == Some(v.texts[i]))
              && Flatten(r.chunks) == Encode(Concat(v.texts))
    ensures v.Plain? || v.NoContent? || v.Declined? ==> r == EmptyBytes
  {
    match v
    case Buffered(b) => Stream(b)
    case FileObj(f, _) => File(f)
    case Generator(chunks) => Chunks(chunks)
    case StrGenerator(texts) =>
      StrGeneratorEncoding(texts);
      Chunks(EncodeAll(texts))
    case _ => EmptyBytes
  }

  /** The `data` argument of `make_response`: text, bytes, something iterable (its items
      taken as byte chunks) or something that is none of those. */
  datatype ResponseData = DataText(text: string) | DataBytes(bytes: Bytes) | DataIterable(chunks: seq<Bytes>) | DataOther

  /** `make_response(data, content_type, headers, status_code)`: text or bytes give a
      `Response`, anything iterable a `GeneratorResponse`; every failure, whatever it was,
      becomes a ResponseError. */
  method MakeResponse(data: ResponseData, ct: string, headers: Option<seq<Header>>, code: int)
    returns (r: Result<BaseResponse, Error>)
    ensures r.Failure? <==> data.DataOther? || !StatusTable.Registered(code)
    ensures r.Failure? ==> r.error == ResponseError(BAD_VALUES)
    ensures r.Success? && data.DataText? ==>
              fresh(r.value) && r.value.HoldsBuffer(Encode(data.text), ct, InitialHeaders(headers), code)
    ensures r.Success? && data.DataBytes? ==>
              fresh(r.value) && r.value.HoldsBuffer(data.bytes, ct, InitialHeaders(headers), code)
    ensures r.Success? && data.DataIterable? ==>
              fresh(r.value) && r.value.Valid() && r.value.variant == Generator(data.chunks)
              && r.value.Created(ct, InitialHeaders(headers), code, 0)
  {
    var made: Result<BaseResponse, Error>;
    match data {
      case DataText(t) =>
        made := BaseResponse.NewResponse(Str(t), ct, headers, code);
      case DataBytes(b) =>
        made := BaseResponse.NewResponse(Raw(b), ct, headers, code);
      case DataIterable(chunks) =>
        made := BaseResponse.NewGenerator(chunks, ct, headers, code);
      case DataOther =>
        made := Failure(ResponseError(BAD_VALUES));
    }
    r := if made.Success? then made else Failure(ResponseError(BAD_VALUES));
  }
}
