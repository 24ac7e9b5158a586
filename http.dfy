/** The response statuses the handlers answer with (RFC 9110, section 15). */
module Http {

  datatype Status = Ok | BadRequest | NotFound | MethodNotAllowed | ServerError

  /** The status code on the wire. */
  function Code(s: Status): (c: int)
    ensures 200 <= c < 600
    ensures c < 300 <==> s.Ok?
    ensures 400 <= c < 500 <==> s.BadRequest? || s.NotFound? || s.MethodNotAllowed?
    ensures s.Ok? ==> c == 200
    ensures s.BadRequest? ==> c == 400
    ensures s.NotFound? ==> c == 404
    ensures s.MethodNotAllowed? ==> c == 405
    ensures s.ServerError? ==> c == 500
  {
    match s
    case Ok => 200
    case BadRequest => 400
    case NotFound => 404
    case MethodNotAllowed => 405
    case ServerError => 500
  }

  /** The `success` flag of the JSON body: true exactly on 200. */
  function Success(s: Status): (b: bool)
    ensures b <==> Code(s) == 200
  {
    s.Ok?
  }
}
