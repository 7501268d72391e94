# PoorWSGI responses in Dafny

A Dafny model of the response layer of PoorWSGI (`poorwsgi/response.py`) and of
the constants module it builds on (`poorwsgi/state.py`), with proofs of what
those files promise.

A PoorWSGI handler returns a response object. The WSGI server calls it once with
its `start_response` callable. The object then does three things:

- it checks that it has not been used before;
- it applies the header rules for its status: `Content-Type` and `Content-Length`
  injection, or the 304 warnings;
- it calls `start_response` with `"<code> <reason>"` and the header list, and hands
  back the body: a rewound byte buffer, a file object, a generator, `b''`, or `()`
  for `Declined`.

Handlers can also stop early by raising `HTTPException`, through `abort` or `redirect`.

## Layout

| file | module | what it holds |
|---|---|---|
| `wrappers.dfy` | `Wrappers` | `Option`, `Result`, `Outcome` |
| `text.dfy` | `Text` | bytes; UTF-8 `encode`/`decode`; `str(int)` and `int(str)` |
| `state.dfy` | `State` | `DECLINED`, the `HTTP_*` codes, the `METHOD_*` flags, `methods`, `sorted_methods` |
| `status_table.dfy` | `StatusTable` | `http.client.responses` with the 418 patch; the `"%d %s"` status line |
| `headers.dfy` | `Headers` | the interface of the `Headers` container the responses use |
| `streams.dfy` | `Streams` | `IBytesIO` (a `BytesIO` read in 1024-byte chunks) and the file object |
| `response.dfy` | `Responses` | the response classes, the header rules, the render protocol, `make_response` |
| `exceptions.dfy` | `Exceptions` | `HTTPException`, `abort`, `redirect` |
| `scenarios.dfy` | `Scenarios` | end-to-end uses: build, write, render, drain |

### How the Python classes are represented

- **One class for the hierarchy.** All the Python response classes are one Dafny
  class, `Responses.BaseResponse`. A constant `variant` field says which Python
  class an object is, and holds what that class adds: the `IBytesIO` buffer, the
  file object with its start offset, or the generator's items.
- **Factories for constructors that can fail.** A constructor that can raise is a
  static method returning `Result<BaseResponse, Error>`. For example, `Response(...)`
  with an unregistered status code fails with `KeyError`.
- **`__call__` is `Call`.** It returns:
  - the `start_response` call it made, if any;
  - the warnings it logged;
  - the payload, or the exception it raised.

  Whether `start_response` itself raises is a parameter of `Call`.
- **Stateful parts stay stateful.** The fields the source updates in place are
  mutable fields of the class: the header list, the status and reason, the
  content length and the `done` flag. The buffer position and the file position
  live in the `IBytesIO` and `FileObject` objects, and the methods change them
  in place.
- **Pure parts stay pure.** These are functions and lemmas:
  - the content-type strings;
  - the JSON argument rule;
  - the redirect status choice;
  - the header injection and the 304 warnings;
  - `HTTPException.response`;
  - everything in `state.py`.

### Behaviour taken from the code where its documentation says otherwise

- **`NotModifiedResponse` sends no headers at render.** It inherits
  `NoContentResponse.__start_response__` (poorwsgi/response.py:434-436), so it calls
  `start_response` with an empty header list. The base class's 304 checks never run
  for it, and it logs no warning, whatever headers it holds (`Scenarios.RenderNotModified`).
- **The entity tag goes in as `E-Tag`** (poorwsgi/response.py:521). The 304 rules look
  for `ETag`, so an etag alone would not satisfy them if the base checks did run
  (`Responses.NotModifiedETagName`).
- **`Declined` is not single-use.** `Declined.__call__` never sets `done` and never
  calls `start_response`, so it answers `()` every time (`Scenarios.RenderDeclinedTwice`).
- **A non-seekable file of known size cannot build a `FileObjResponse`.** Such a file
  makes `FileObjResponse` raise `AttributeError`: the subtraction at
  poorwsgi/response.py:296 reads `__pos`, which is set only for seekable files, and
  `except OSError` does not catch it. A file of unknown size gets length 0.
- **The file checks are assertions.** A text-mode or unreadable file fails an
  assertion (`AssertionError`); there is no dedicated construction error.
- **`content_length` can count more bytes than the buffer holds.** `Response(data)`
  leaves its buffer at position 0, so a later `write` overwrites the front of the
  data. `content_length` still grows by the full size written
  (`Responses.WriteAfterInitialDataOverwrites`).
- **The status table is the one of Python 3.9 to 3.12, plus the 418 patch.** Three
  `HTTP_*` constants of `state.py` are not in it: 444, 499 and 599. Building a
  response with any of them fails with `KeyError` (`StatusTable.UnregisteredConstants`).

## Model

| member | source | states |
|---|---|---|
| State.DeclinedIsNoStatus | poorwsgi/state.py:14-86 | `DECLINED` is 0 and equals no `HTTP_*` constant; every `HTTP_*` constant lies in 100..599; the teapot code is 418 |
| State.MethodFlagsArePowersOfTwo | poorwsgi/state.py:88-96 | the nine method flags are 2^0 .. 2^8: distinct, strictly increasing powers of two from 1 to 256 |
| State.BitOrHighPower | poorwsgi/state.py:98-101 | or-ing in a power of two above every bit of a number adds it, for Python's `\|` on non-negative integers |
| State.BitOrAllLowBits | poorwsgi/state.py:98-101 | or-ing the first n powers of two gives 2^n - 1 |
| State.MethodGetPostValue | poorwsgi/state.py:98-99 | `METHOD_GET_POST` is `HEAD \| GET \| POST`, which is 7 |
| State.MethodAllIsEveryFlag | poorwsgi/state.py:100-101 | the literal 511 of `METHOD_ALL` is exactly the or of all nine flags |
| State.MethodsKeys | poorwsgi/state.py:104-112 | `methods` holds exactly the nine method names |
| State.MethodsInjective | poorwsgi/state.py:104-112 | no two method names share a flag |
| State.MethodsItems | poorwsgi/state.py:104-112 | `methods.items()` in insertion order pairs each name with its flag, and lists every entry |
| State.MethodItemsAscending | poorwsgi/state.py:104-112 | the dict literal already lists the methods in strictly ascending flag order |
| State.InsertByFlagAdds | poorwsgi/state.py:114 | one insertion step of the sort adds exactly the inserted item (a multiset equation) |
| State.InsertByFlagSorted | poorwsgi/state.py:114 | inserting into a flag-sorted list keeps it sorted; the new head is the item or the old head |
| State.SortByFlagSorted | poorwsgi/state.py:114 | `sorted(items, key=itemgetter(1))` returns its input sorted by flag and permuted, nothing added or lost |
| State.SortSortedIsIdentity | poorwsgi/state.py:114 | sorting a list already sorted by flag returns it unchanged |
| State.SortedMethodsUnchanged | poorwsgi/state.py:104-114 | `sorted_methods` equals `methods.items()` in insertion order |
| State.SortedMethodsAscending | poorwsgi/state.py:114 | `sorted_methods` is in strictly ascending flag order |
| State.SortedMethodsEnds | poorwsgi/state.py:114 | `sorted_methods` has nine entries, HEAD first and PATCH last |
| State.SortedMethodsPermutation | poorwsgi/state.py:114 | `sorted_methods` is a permutation of `methods.items()` and holds exactly the pairs of `methods` |
| StatusTable.Reason | poorwsgi/response.py:35 | the patched table agrees with the platform table on every code but 418 |
| StatusTable.TeapotRegistered | poorwsgi/response.py:35 | 418 reads "I'm a teapot" after the patch; a code is registered exactly when the platform table has it |
| StatusTable.RegisteredConstants | poorwsgi/response.py:86 | 200, 204, 301, 302 and 304, the codes responses use by default, are registered |
| StatusTable.UnregisteredConstants | poorwsgi/response.py:86 | `DECLINED`, 444, 499 and 599 are not registered, so a reason lookup for them raises |
| StatusTable.RegisteredCodesAreThreeDigit | poorwsgi/response.py:86 | every registered code lies in 100..599 |
| StatusTable.StatusLineRoundTrip | poorwsgi/response.py:166-167 | the status line `"%d %s"` can be split back into the code and the reason |
| StatusTable.OkStatusLine | poorwsgi/response.py:166-167 | code 200 with reason "OK" gives the line "200 OK" |
| StatusTable.NoContentStatusLine | poorwsgi/response.py:435-436 | code 204 with its reason gives "204 No Content" |
| StatusTable.NotModifiedStatusLine | poorwsgi/response.py:435-436 | code 304 with its reason gives "304 Not Modified" |
| Text.EncodeChar | poorwsgi/response.py:209-210 | a character's UTF-8 encoding has its width in bytes: a lead byte, then continuation bytes |
| Text.EncodeLength | poorwsgi/response.py:226-228 | the byte length of encoded text, which `write` adds to `content_length`, is the sum of the characters' UTF-8 widths |
| Text.EncodeAscii | poorwsgi/response.py:209-210 | ASCII text encodes to one byte per character, each byte the character's code |
| Text.EncodeAppend | poorwsgi/response.py:226-229 | encoding distributes over concatenation |
| Text.EncodeConcat | poorwsgi/response.py:398-399 | encoding texts one by one and joining the bytes equals encoding the joined text |
| Text.DecodeEncode | poorwsgi/response.py:209-210 | decoding inverts `encode("utf-8")` |
| Text.EncodeInjective | poorwsgi/response.py:209-210 | distinct texts never encode to the same bytes |
| Text.NatToString | poorwsgi/response.py:163-164 | `str(n)` is a non-empty digit string with no leading zero unless n is 0 |
| Text.IntToString | poorwsgi/response.py:163-164 | `str(i)` is non-empty and holds no space |
| Text.ThreeDigits | poorwsgi/response.py:166-167 | a three-digit code is written as its three digits |
| Text.IntToStringRoundTrip | poorwsgi/response.py:163-164 | `int(str(i)) == i`: the injected `Content-Length` value reads back as the length |
| Headers.Keys | poorwsgi/response.py:149 | `keys()` lists the stored names in order, one per header |
| Headers.GetFirstMatch | poorwsgi/response.py:157-158 | `get(name)` is nothing exactly when no name matches ignoring case, and otherwise the value of the first match |
| Headers.Add | poorwsgi/response.py:159 | `add` appends one header and keeps the others in front |
| Headers.GetAppend | poorwsgi/response.py:157-164 | appending headers never changes the answer for a name already present; otherwise the answer comes from the appended part |
| Headers.GetAfterAdd | poorwsgi/response.py:157-164 | adding a header of another name leaves `get` unchanged; adding a matching one to headers without it makes `get` return its value |
| Streams.Overwrite | poorwsgi/response.py:229 | `BytesIO.write` at a position keeps the bytes before it and replaces the bytes from it on; bytes beyond the written end stay |
| Streams.OverwriteAtEnd | poorwsgi/response.py:229 | a write at the end of the buffer appends |
| Streams.OverwriteAll | poorwsgi/response.py:229 | a write at position 0 at least as long as the buffer replaces it |
| Streams.KiloChunksShape | poorwsgi/response.py:51-57 | the 1024-byte reads of a stream join back to it; none is empty; all but the last hold exactly 1024 bytes |
| Streams.KiloChunksStep | poorwsgi/response.py:51-53 | one `read_kilo` takes the first chunk off the chunking of the rest |
| Streams.KiloChunksUnique | poorwsgi/response.py:55-57 | any chunking with those three properties is the one `__iter__` produces |
| Streams.IBytesIO.constructor | poorwsgi/response.py:212 | `IBytesIO(data)` holds the data, positioned at 0 |
| Streams.IBytesIO.Write | poorwsgi/response.py:229 | `write` overwrites at the position and moves the position past the written bytes |
| Streams.IBytesIO.Rewind | poorwsgi/response.py:232 | `seek(0)` |
| Streams.IBytesIO.ReadUpTo | poorwsgi/response.py:53 | `read(n)` returns the next at most n bytes, advances by as many, and returns nothing only at the end or for n = 0 |
| Streams.IBytesIO.Read | poorwsgi/response.py:222 | `read()` returns everything from the position and leaves it at the end |
| Streams.IBytesIO.ReadKilo | poorwsgi/response.py:51-53 | `read_kilo` is `read(1024)`; it is empty exactly at the end |
| Streams.IBytesIO.Iterate | poorwsgi/response.py:55-57 | the read loop returns the chunking of the bytes past the position: they join back to those bytes, none is empty, none exceeds 1024; the stream ends at its end |
| Streams.FileObject.constructor | poorwsgi/response.py:279-285 | a file object with its content, position and capability flags |
| Streams.FileObject.Tell | poorwsgi/response.py:292-293 | `tell()` on a seekable file returns its position |
| Streams.FileObject.Seek | poorwsgi/response.py:334-335 | `seek(p)` on a seekable file sets the position |
| Streams.FileObject.Read | poorwsgi/response.py:313-315 | `read()` returns the rest of the file from the position and advances past it |
| Streams.Remaining | poorwsgi/response.py:313-315 | the bytes from a position on, nothing when the position is past the end |
| Responses.WithCharsetParts | poorwsgi/response.py:245-247 | the content type `JSONResponse`/`TextResponse` build splits back into the media type and the charset given |
| Responses.InjectRepresentationHeaders | poorwsgi/response.py:156-164 | injection keeps every existing header, in front, and appends at most two |
| Responses.InjectAppends | poorwsgi/response.py:156-164 | `Content-Type` is appended exactly when the content type is non-empty and no non-empty one is present; `Content-Length` with `str(length)` exactly when the length is non-zero and none is present |
| Responses.InjectContentType | poorwsgi/response.py:157-159 | after injection `get('Content-Type')` keeps a present non-empty value; it is unchanged when the content type is empty; when no `Content-Type` header is present and the content type is non-empty, it gives the content type |
| Responses.InjectContentLength | poorwsgi/response.py:161-164 | after injection `get('Content-Length')` keeps a present non-empty value; it is unchanged when the length is 0; when no `Content-Length` header is present and the length is non-zero, it gives `str(content_length)`, which parses back to the length |
| Responses.InjectIdempotent | poorwsgi/response.py:156-164 | injecting a second time adds nothing, unless a header holds an empty content value |
| Responses.DefaultHeadersHoldNoContentHeaders | poorwsgi/response.py:78-80 | the default header set holds neither `Content-Type` nor `Content-Length` |
| Responses.InjectIntoBareHeaders | poorwsgi/response.py:156-164 | headers holding neither gain exactly `Content-Type` then `Content-Length`, when the content type is non-empty and the length non-zero |
| Responses.NotModifiedWarnings | poorwsgi/response.py:145-155 | one warning exactly when some name is in the deny set, one exactly when no name is in the required set, and no other warning |
| Responses.StartHeadersRules | poorwsgi/response.py:144-164 | a 304 keeps the headers as they are; any other status only appends and logs nothing |
| Responses.StrGeneratorEncoding | poorwsgi/response.py:398-399 | a `StrGeneratorResponse` streams one chunk per text; each chunk decodes back to its text and all of them join to the encoded whole |
| Responses.WriteStep | poorwsgi/response.py:224-229 | a write grows `content_length` and the position by the size written and keeps position <= bytes <= length |
| Responses.Replay | poorwsgi/response.py:224-229 | any sequence of writes keeps position <= bytes <= length |
| Responses.WritesAppend | poorwsgi/response.py:224-229 | with the position at the end, writes append their concatenation and add its size to the length |
| Responses.WritesFromEmpty | poorwsgi/response.py:209-229 | from empty data, writes `w1..wn` leave the buffer holding their concatenation and `content_length` its size |
| Responses.WriteAfterInitialDataOverwrites | poorwsgi/response.py:212-229 | `Response(b"abc")` written `b"d"` holds `b"dbc"` with a `content_length` of 4 |
| Responses.JsonArgument | poorwsgi/response.py:248-252 | data together with kwargs raises RuntimeError; otherwise the kwargs are serialised when given, else the data (possibly `None`) |
| Responses.RedirectStatus | poorwsgi/response.py:498-501 | 301 when `status_code is True` or `permanent`; otherwise the code given; `False` counts as 0, which is not registered |
| Responses.NotModifiedHeaders | poorwsgi/response.py:519-531 | the headers passed stay in front, followed by one header for each of etag, content location, date and vary that is given |
| Responses.GetAfterAddWhen | poorwsgi/response.py:519-531 | a conditional `add_header` leaves `get` unchanged when nothing is added or the name differs, and makes `get` answer the added value for a name that was absent |
| Responses.NotModifiedETagHeader | poorwsgi/response.py:520-521 | `("E-Tag", etag)` is the first appended header exactly when an etag is given; `get('E-Tag')` then answers it if the headers had none, and is unchanged otherwise |
| Responses.NotModifiedLocationHeader | poorwsgi/response.py:522-523 | a given content location is what `get('Content-Location')` answers if the headers had none; without one, `get` is unchanged |
| Responses.NotModifiedDateHeader | poorwsgi/response.py:524-529 | `get('Date')` answers a non-empty string date as is, a number through `time_to_http` and a datetime through `datetime_to_http` if the headers had none; with no date or an empty string it is unchanged |
| Responses.NotModifiedVaryHeader | poorwsgi/response.py:530-531 | a given vary is the last header appended and what `get('Vary')` answers if the headers had none; without one, `get` is unchanged |
| Responses.NotModifiedETagName | poorwsgi/response.py:520-521 | an etag is appended as `E-Tag`, which still leaves the required-header warning due |
| Responses.BaseResponse.Init | poorwsgi/response.py:63-87 | a new object holds the content type, the headers and the code with its table reason, and is not done |
| Responses.BaseResponse.HeadersProperty | poorwsgi/response.py:128-131 | the `headers` property answers the stored headers, except for `Declined`, which always answers an empty set (response.py:454-457) |
| Responses.BaseResponse.ContentLength | poorwsgi/response.py:115-121 | `content_length` is the counted length for a buffer or file response (response.py:215-217, 319-325) and 0 for every other class |
| Responses.BaseResponse.GeneratorSendsNoLength | poorwsgi/response.py:161-164 | a generator response reports length 0, so rendering it never injects `Content-Length`: `get('Content-Length')` answers what the stored headers did |
| Responses.PayloadOf | poorwsgi/response.py:170-177 | the render hands back the response's own buffer (response.py:231-233) or file object (328-336), the generator's chunks (384-385), the UTF-8 encoded texts, one chunk per text that decodes back to it, joining to the encoded whole (398-399), or `b''` |
| Responses.BaseResponse.Data | poorwsgi/response.py:219-222 | `data` returns the whole buffer and leaves it at its end, or the file from its start offset when seekable and leaves it just after what it read (response.py:308-318), or nothing; the content is unchanged |
| Responses.BaseResponse.Write | poorwsgi/response.py:224-229 | `write` is one `WriteStep` on the buffer state |
| Responses.BaseResponse.SetStatusCode | poorwsgi/response.py:99-104 | an unregistered code raises ValueError and changes nothing; a registered one becomes the status with its table reason |
| Responses.BaseResponse.SetHeaders | poorwsgi/response.py:133-138 | the setter replaces the headers; `Declined` keeps them and logs a warning instead |
| Responses.BaseResponse.AddHeader | poorwsgi/response.py:140-142 | `add_header` appends; `Declined` keeps its headers and logs a warning instead |
| Responses.BaseResponse.StartResponse | poorwsgi/response.py:144-168 | the no-content group sends `"%d %s"` with no headers; the others apply the 304 warnings or the injection, then send the resulting headers |
| Responses.BaseResponse.EndOfResponse | poorwsgi/response.py:170-177 | the payload of each class; a buffer is rewound to 0 and a seekable file to its start offset (response.py:231-233, 333-335); a non-seekable file is handed back where it stands |
| Responses.BaseResponse.Call | poorwsgi/response.py:179-186 | a second call raises RuntimeError and calls nothing; the first marks the object done even when `start_response` raises; `Declined` calls nothing and answers `()`; a second call, a raising `start_response` and `Declined` leave the stream positions as they were, and a non-seekable file is never moved |
| Responses.BaseResponse.Make | poorwsgi/response.py:63-87 | an unregistered code raises KeyError; otherwise a new object with the given or default headers |
| Responses.BaseResponse.NewBase | poorwsgi/response.py:63-87 | `BaseResponse(...)`: KeyError for an unregistered code, otherwise a plain response with no length |
| Responses.BaseResponse.NewResponse | poorwsgi/response.py:199-213 | `Response(...)`: the buffer holds the data, UTF-8 encoded if text, at position 0, and the length is its size |
| Responses.BaseResponse.NewJSON | poorwsgi/response.py:241-252 | `JSONResponse(...)`: RuntimeError for data together with kwargs; otherwise a `Response` holding the serialised argument with type `application/json` plus the charset |
| Responses.BaseResponse.NewText | poorwsgi/response.py:255-264 | `TextResponse(...)`: a `Response` holding the encoded text with type `text/plain` plus the charset |
| Responses.BaseResponse.NewFileObj | poorwsgi/response.py:279-304 | `FileObjResponse(...)`: the two assertions, then KeyError, then AttributeError for a non-seekable file of known size; otherwise start offset = position when seekable, length = size - offset when known, else 0 |
| Responses.BaseResponse.NewGenerator | poorwsgi/response.py:375-382 | `GeneratorResponse(...)` keeps the generator and reports no length |
| Responses.BaseResponse.NewStrGenerator | poorwsgi/response.py:390-396 | `StrGeneratorResponse(...)` keeps the texts and reports no length |
| Responses.BaseResponse.NewJSONGenerator | poorwsgi/response.py:410-424 | `JSONGeneratorResponse(...)`: NotImplementedError without the encoder; otherwise a `StrGeneratorResponse` over the encoder's pieces, typed `application/json` |
| Responses.BaseResponse.NewNoContent | poorwsgi/response.py:429-432 | `NoContentResponse(...)`: no content type, no length |
| Responses.BaseResponse.NewEmpty | poorwsgi/response.py:441-443 | `EmptyResponse(code)` is a `NoContentResponse` with the default headers |
| Responses.BaseResponse.NewDeclined | poorwsgi/response.py:451-457 | `Declined(code)` is in the no-content group and its `headers` is always empty |
| Responses.BaseResponse.NewNotModified | poorwsgi/response.py:511-531 | `NotModifiedResponse(...)` is a 304 that cannot fail, holding the headers `NotModifiedHeaders` adds |
| Responses.BaseResponse.NewRedirect | poorwsgi/response.py:493-506 | `RedirectResponse(...)`: a `text/plain` `Response` holding the message, with the status `RedirectStatus` picks and `Location` appended; the `permanent` form logs a warning |
| Responses.MakeResponse | poorwsgi/response.py:585-605 | text or bytes give a `Response`, an iterable a `GeneratorResponse`; any other data and any failure become ResponseError |
| Exceptions.HTTPException.Response | poorwsgi/response.py:577-582 | `response` is the carried object exactly when it is a `Response` |
| Exceptions.HTTPException.MakeResponse | poorwsgi/response.py:565-575 | the carried `Response` itself; a new `Declined` for code 0; a new `EmptyResponse` (204) for 200; nothing for any other code |
| Exceptions.NewHTTPException | poorwsgi/response.py:557-563 | the argument must be a code or a `Response`; anything else fails the assertion |
| Exceptions.Abort | poorwsgi/response.py:622-640 | `abort` always raises an `HTTPException` carrying its argument and no attributes |
| Exceptions.AbortCarriesResponse | poorwsgi/response.py:622-640 | aborting with a `Response` hands exactly that object to the catcher |
| Exceptions.AbortWithCodeCarriesNoResponse | poorwsgi/response.py:622-640 | aborting with a code carries the code and no response |
| Exceptions.Redirect | poorwsgi/response.py:608-619 | `redirect` raises an `HTTPException` carrying the `RedirectResponse`, or the KeyError building it raised |
| Scenarios.WriteTwice | poorwsgi/response.py:209-229 | a `Response` from empty data written twice holds both writes joined and counts both |
| Scenarios.RenderDrain | poorwsgi/response.py:156-186 | rendering such a response sends "200 OK" with its headers, the content type and the length; draining yields the buffer in chunks of at most 1024 bytes |
| Scenarios.WriteRenderDrain | poorwsgi/response.py:224-233 | build, write twice, render, drain: the server receives exactly the two writes |
| Scenarios.RenderTwice | poorwsgi/response.py:179-181 | the second render raises RuntimeError without calling `start_response` |
| Scenarios.RenderDeclinedTwice | poorwsgi/response.py:475-477 | `Declined` answers `()` without calling `start_response`, every time |
| Scenarios.RenderNotModified | poorwsgi/response.py:434-436 | a `NotModifiedResponse` with an etag renders "304 Not Modified" with no headers and no warning |
| Scenarios.RenderOkException | poorwsgi/response.py:573-574 | `HTTPException(HTTP_OK).make_response()` renders "204 No Content" with no headers and `b''` |

## Left out

- `FileResponse(path, ...)` is not modelled. It opens a path, checks access, guesses
  the MIME type and reads the change time, all of which are file-system calls.
- Looking up a file's size (`fstat`, `getbuffer().nbytes`) is not modelled. The file
  object's `sizeKnown` flag stands for it.
- `json.dumps` and simplejson's `iterencode` are function parameters.
  Whether simplejson is installed is a boolean parameter.
- `time_to_http` and `datetime_to_http` are function parameters; `poorwsgi/headers.py`
  is not part of this model.
- The `Headers` container is reduced to the interface used here: an ordered list of
  pairs, `add`, `keys`, and `get` ignoring ASCII case. Sharing a `Headers` object
  between a caller and a response is not modelled, because the list is a value.
  `add_header` parameters (`**kwargs`) are not modelled either.
- Logging is reduced to the list of warnings a call returns. Not modelled: the message
  text, the `inspect.stack()` call-site text of `Declined`, the debug and info logs,
  the stray `print`, and the `deprecated` decorator of `state.py`.
- Generators are finite sequences. Laziness and one-shot consumption are not
  modelled. A generator that raises while it is drained is outside this model.
- `Text.Encode`: surrogate code points, on which Python's `encode("utf-8")` raises,
  are not modelled, because Dafny characters are Unicode scalar values.
- The `content_type` attribute can be reassigned in Python. The model has no method
  for that.
- Python's type assertions on `content_type`, `status_code` and `data` are not
  modelled, because the Dafny types already rule out the wrong types. Running Python
  with `-O`, which removes assertions, is not modelled either.
- A `bool` passed as a status code is not modelled, except for `RedirectResponse`'s
  `status_code` argument (`Responses.StatusArg`).
- Header names are compared with ASCII case folding only.
