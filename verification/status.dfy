/** The HTTP response statuses the counter service answers with, as defined in
    RFC 9110: 200 OK (section 15.3.1), 201 Created (section 15.3.2),
    404 Not Found (section 15.5.5) and 409 Conflict (section 15.5.10). */
module HttpStatus {

  datatype Status = Ok | Created | NotFound | Conflict

  /** True for the statuses of the 2xx (Successful) class. */
  predicate IsSuccess(s: Status) {
    s == Ok || s == Created
  }

  /** The numeric status code sent on the wire. */
  function Code(s: Status): (c: nat)
    ensures IsSuccess(s) <==> 200 <= c < 300
    ensures !IsSuccess(s) <==> 400 <= c < 500
    ensures s == Created ==> c == 201
    ensures s == Conflict ==> c == 409
    ensures s == Ok ==> c == 200
    ensures s == NotFound ==> c == 404
  {
    match s
    case Ok => 200
    case Created => 201
    case NotFound => 404
    case Conflict => 409
  }
}
