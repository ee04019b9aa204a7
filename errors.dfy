/**
 * The application error taxonomy, its display texts, and the HTTP response
 * each error becomes: a status code and a JSON body with one field, `error`.
 */
module Errors {

  datatype AppError =
    | BadRequest(message: string)
    | NotFound(message: string)
    | Internal(cause: string)

  /** The `Display` text of an error; an internal error does not show its cause. */
  function Display(e: AppError): (s: string)
    ensures e.BadRequest? ==> s == "Bad request: " + e.message
    ensures e.NotFound? ==> s == "Order not found: " + e.message
    ensures e.Internal? ==> s == "Internal error"
  {
    match e
    case BadRequest(m) => "Bad request: " + m
    case NotFound(m) => "Order not found: " + m
    case Internal(_) => "Internal error"
  }

  /** Errors of different kinds never display alike, whatever their messages. */
  lemma DisplayTellsKindsApart(a: AppError, b: AppError)
    requires a.BadRequest? != b.BadRequest? || a.NotFound? != b.NotFound?
    ensures Display(a) != Display(b)
  {
    assert Display(a)[0] != Display(b)[0];
  }

  datatype ErrorBody = ErrorBody(error: string)

  datatype Response = Response(status: nat, contentType: string, body: ErrorBody)

  const InternalErrorMessage: string := "internal error"

  /**
   * `into_response`: a bad request is 400 and a missing order 404, each with
   * its own message; an internal error is 500 with a fixed message.
   */
  function IntoResponse(e: AppError): (r: Response)
    ensures r.contentType == "application/json"
    ensures r.status == 400 <==> e.BadRequest?
    ensures r.status == 404 <==> e.NotFound?
    ensures r.status == 500 <==> e.Internal?
    ensures !e.Internal? ==> r.body == ErrorBody(e.message)
    ensures e.Internal? ==> r.body == ErrorBody(InternalErrorMessage)
  {
    var (code, msg) :=
      match e
      case BadRequest(m) => (400, m)
      case NotFound(m) => (404, m)
      case Internal(_) => (500, InternalErrorMessage);
    Response(code, "application/json", ErrorBody(msg))
  }

  /** The response to an internal error is the same whatever its cause, so no cause reaches the client. */
  lemma InternalHidesCause(a: string, b: string)
    ensures IntoResponse(Internal(a)) == IntoResponse(Internal(b))
  {
  }

  /** Client errors (4xx) are exactly the bad requests and missing orders, and they carry their message. */
  lemma ClientErrorsCarryMessage(e: AppError)
    ensures 400 <= IntoResponse(e).status < 500 <==> !e.Internal?
    ensures !e.Internal? ==> IntoResponse(e).body.error == e.message
  {
  }
}
