/**
 * `HTTPException`, the value a handler raises to stop at once, and the helpers
 * `abort` and `redirect` that raise it.
 */
module Exceptions {
  import opened Wrappers
  import opened Text
  import opened Headers
  import opened Responses
  import StatusTable
  import State

  /** The first argument of `HTTPException`: a status code or a response. */
  datatype ExceptionArg = Status(code: int) | Carried(response: BaseResponse)

  /** `HTTPException(arg, **kwargs)`: its argument and its keyword attributes. */
  datatype HTTPException = HTTPException(arg: ExceptionArg, attributes: map<string, string>) {

    /** The `response` property: the carried object when it is a `Response`. */
    function Response(): (r: Option<BaseResponse>)
      ensures r.Some? <==> arg.Carried? && arg.response.IsResponse()
      ensures r.Some? ==> r.value == arg.response
    {
      if arg.Carried? && arg.response.IsResponse() then Some(arg.response) else None
    }

    /** `make_response()`: the carried `Response` itself; for DECLINED a new `Declined`
        with status 200; for 200 a new `EmptyResponse` (204, default headers); nothing
        for any other code or a carried object that is not a `Response`. */
    method MakeResponse() returns (r: Option<BaseResponse>)
      ensures arg.Carried? && arg.response.IsResponse() ==> r == Some(arg.response)
      ensures arg == Status(State.DECLINED) ==>
                && r.Some? && fresh(r.value) && r.value.Valid() && r.value.variant == Declined
                && r.value.Created("", DEFAULT_HEADERS, State.HTTP_OK, 0)
      ensures arg == Status(State.HTTP_OK) ==>
                && r.Some? && fresh(r.value) && r.value.Valid() && r.value.variant == NoContent
                && r.value.Created("", DEFAULT_HEADERS, State.HTTP_NO_CONTENT, 0)
      ensures r.None? <==>
                (arg.Carried? && !arg.response.IsResponse())
                || (arg.Status? && arg.code != State.DECLINED && arg.code != State.HTTP_OK)
    {
      StatusTable.RegisteredConstants();
      match arg {
        case Carried(response) =>
          r := if response.IsResponse() then Some(response) else None;
        case Status(code) =>
          if code == State.DECLINED {
            var made := BaseResponse.NewDeclined(State.HTTP_OK);
            r := Some(made.value);
          } else if code == State.HTTP_OK {
            var made := BaseResponse.NewEmpty(State.HTTP_NO_CONTENT);
            r := Some(made.value);
          } else {
            r := None;
          }
      }
    }
  }

  /** Building an `HTTPException` asserts that its argument is a code or a `Response`. */
  function NewHTTPException(arg: ExceptionArg, attributes: map<string, string>): (r: Result<HTTPException, Error>)
    ensures r.Failure? <==> arg.Carried? && !arg.response.IsResponse()
    ensures r.Failure? ==> r.error == AssertionError("")
    ensures r.Success? ==> r.value.arg == arg && r.value.attributes == attributes
  {
    if arg.Carried? && !arg.response.IsResponse() then Failure(AssertionError(""))
    else Success(HTTPException(arg, attributes))
  }

  /** What a helper raises: the HTTP exception, or another error on the way to it. */
  datatype Raised = Signal(exception: HTTPException) | Failed(error: Error)

  /** `abort(arg)` */
  function Abort(arg: ExceptionArg): (r: Raised)
    ensures r.Signal? <==> !(arg.Carried? && !arg.response.IsResponse())
    ensures r.Signal? ==> r.exception == HTTPException(arg, map[])
    ensures r.Failed? ==> r.error == AssertionError("")
  {
    match NewHTTPException(arg, map[])
    case Success(e) => Signal(e)
    case Failure(err) => Failed(err)
  }

  /** Aborting with a `Response` hands exactly that object to whoever catches the exception. */
  lemma AbortCarriesResponse(resp: BaseResponse)
    requires resp.IsResponse()
    ensures Abort(Carried(resp)).Signal?
    ensures Abort(Carried(resp)).exception.Response() == Some(resp)
  {
  }

  /** Aborting with a code carries no response: the application's handler for the code is used. */
  lemma AbortWithCodeCarriesNoResponse(code: int)
    ensures Abort(Status(code)).Signal?
    ensures Abort(Status(code)).exception.Response().None?
    ensures Abort(Status(code)).exception.arg.code == code
  {
  }

  /** `redirect(location, status_code, message, headers, permanent)`: raises an
      `HTTPException` carrying the `RedirectResponse`, or the error building it raised. */
  method Redirect(location: string, arg: StatusArg, message: Body, headers: Option<seq<Header>>, permanent: bool)
    returns (raised: Raised, warnings: seq<Warning>)
    ensures warnings == if arg == Flag(true) || permanent then [PermanentDeprecated] else []
    ensures raised.Signal? <==> StatusTable.Registered(RedirectStatus(arg, permanent))
    ensures raised.Failed? ==> raised.error == KeyError(RedirectStatus(arg, permanent))
    ensures raised.Signal? ==>
              && raised.exception.arg.Carried? && raised.exception.attributes == map[]
              && raised.exception.Response() == Some(raised.exception.arg.response)
              && fresh(raised.exception.arg.response)
              && raised.exception.arg.response.HoldsBuffer(EncodeBody(message), "text/plain",
                   Add(InitialHeaders(headers), "Location", location), RedirectStatus(arg, permanent))
  {
    var made;
    made, warnings := BaseResponse.NewRedirect(location, arg, message, headers, permanent);
    if made.Failure? {
      raised := Failed(made.error);
    } else {
      raised := Abort(Carried(made.value));
    }
  }
}
