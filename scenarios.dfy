/**
 * Whole uses of the response objects, as a handler and the WSGI server go
 * through them: build, write, render, drain.
 */
module Scenarios {
  import opened Wrappers
  import opened Text
  import opened Headers
  import opened Streams
  import opened Responses
  import opened Exceptions
  import StatusTable
  import State

  /** A `Response` built from empty data with headers `h` and written twice holds the
      two writes joined, and its length counts both. */
  method WriteTwice(h: seq<Header>, ct: string, w1: Bytes, w2: Bytes) returns (r: BaseResponse)
    ensures fresh(r) && fresh(r.Footprint()) && r.Valid() && r.variant.Buffered?
    ensures r.variant.buffer.bytes == w1 + w2 && r.length == |w1| + |w2|
    ensures r.status == State.HTTP_OK && r.reason == "OK" && !r.done
    ensures r.headerList == h && r.contentType == ct
  {
    StatusTable.RegisteredConstants();
    var made := BaseResponse.NewResponse(Raw([]), ct, Some(h), State.HTTP_OK);
    r := made.value;
    assert r.Buffer() == BufferState([], 0, 0);
    r.Write(Raw(w1));
    OverwriteAtEnd([], w1);
    assert r.Buffer() == BufferState(w1, |w1|, |w1|);
    r.Write(Raw(w2));
    OverwriteAtEnd(w1, w2);
  }

  /** Rendering a fresh `Response` with status 200 whose headers hold neither
      representation header: `start_response` gets "200 OK" with those headers, the
      content type and the length; draining the payload yields the buffer in chunks of
      at most 1024 bytes. */
  method RenderDrain(r: BaseResponse) returns (res: RenderResult, chunks: seq<Bytes>)
    requires r.Valid() && r.variant.Buffered? && !r.done
    requires r.status == State.HTTP_OK && r.reason == "OK"
    requires !Contains(r.headerList, CONTENT_TYPE) && !Contains(r.headerList, CONTENT_LENGTH)
    requires r.contentType != "" && r.length == |r.variant.buffer.bytes| > 0
    modifies r`headerList, r`done, r.Footprint()
    ensures res.started == Some(StartResponseCall("200 OK",
              old(r.headerList + [(CONTENT_TYPE, r.contentType), (CONTENT_LENGTH, IntToString(r.length))])))
    ensures res.warnings == []
    ensures Flatten(chunks) == old(r.variant.buffer.bytes)
    ensures forall i :: 0 <= i < |chunks| ==> 1 <= |chunks[i]| <= KILO
  {
    InjectIntoBareHeaders(r.headerList, r.contentType, r.length);
    StatusTable.OkStatusLine();
    ghost var sent := StartHeaders(r.status, r.contentType, r.ContentLength(), r.headerList);
    assert sent == r.headerList + [(CONTENT_TYPE, r.contentType), (CONTENT_LENGTH, IntToString(r.length))];
    assert StartWarnings(r.status, r.headerList) == [];
    res := r.Call(false);
    assert res.started == Some(StartResponseCall("200 OK", sent));
    assert r.variant.buffer.bytes[r.variant.buffer.pos..] == old(r.variant.buffer.bytes);
    chunks := r.variant.buffer.Iterate();
  }

  /** The two together: a `Response` written twice renders "200 OK" with its headers,
      the content type and the length of both writes, and drains to the two writes joined. */
  method WriteRenderDrain(h: seq<Header>, ct: string, w1: Bytes, w2: Bytes)
    returns (res: RenderResult, chunks: seq<Bytes>)
    requires !Contains(h, CONTENT_TYPE) && !Contains(h, CONTENT_LENGTH)
    requires ct != "" && |w1| + |w2| > 0
    ensures res.started == Some(StartResponseCall("200 OK",
              h + [(CONTENT_TYPE, ct), (CONTENT_LENGTH, IntToString(|w1| + |w2|))]))
    ensures res.warnings == []
    ensures Flatten(chunks) == w1 + w2
    ensures forall i :: 0 <= i < |chunks| ==> 1 <= |chunks[i]| <= KILO
  {
    var r := WriteTwice(h, ct, w1, w2);
    res, chunks := RenderDrain(r);
  }

  /** A response renders once: the second call raises RuntimeError without calling
      `start_response`. */
  method RenderTwice(data: Body) returns (first: RenderResult, second: RenderResult)
    ensures first.started.Some? && first.outcome.Success?
    ensures second == RenderResult(None, [], Failure(RuntimeError(USED_TWICE)))
  {
    StatusTable.RegisteredConstants();
    var made := BaseResponse.NewResponse(data, HTML_UTF8, None, State.HTTP_OK);
    var r := made.value;
    first := r.Call(false);
    second := r.Call(false);
  }

  /** `Declined` never calls `start_response`, answers `()` and can be called again. */
  method RenderDeclinedTwice() returns (first: RenderResult, second: RenderResult)
    ensures first == RenderResult(None, [], Success(EmptyTuple))
    ensures second == first
  {
    StatusTable.RegisteredConstants();
    var made := BaseResponse.NewDeclined(State.HTTP_OK);
    var r := made.value;
    first := r.Call(false);
    second := r.Call(false);
  }

  /** A `NotModifiedResponse` given an etag renders "304 Not Modified" with an empty header
      list and no warning: the headers it added are never sent. */
  method RenderNotModified<D>(etag: string, timeToHttp: int -> string, datetimeToHttp: D -> string)
    returns (res: RenderResult)
    ensures res == RenderResult(Some(StartResponseCall("304 Not Modified", [])), [], Success(EmptyBytes))
  {
    var r := BaseResponse.NewNotModified(None, etag, "", NoDate, "", timeToHttp, datetimeToHttp);
    assert r.status == 304 && r.reason == "Not Modified";
    StatusTable.NotModifiedStatusLine();
    res := r.Call(false);
  }

  /** `HTTPException(HTTP_OK).make_response()` is an `EmptyResponse`, which renders
      "204 No Content" with no headers and an empty body. */
  method RenderOkException() returns (res: RenderResult)
    ensures res == RenderResult(Some(StartResponseCall("204 No Content", [])), [], Success(EmptyBytes))
  {
    var e := HTTPException(Status(State.HTTP_OK), map[]);
    var r := e.MakeResponse();
    assert r.value.status == 204 && r.value.reason == "No Content";
    StatusTable.NoContentStatusLine();
    res := r.value.Call(false);
  }
}
