/**
  The errors the services raise. HTTP exceptions carry a status and the message
  the service gives them; everything else that can go wrong in the model is a
  statement the database refuses.
 */
module Errors {

  /** The framework exceptions the services throw. */
  datatype HttpStatus = BadRequest | Unauthorized | Forbidden | NotFound | Conflict

  /** Why the database refused a statement (MySQL in strict mode). */
  datatype StoreFault =
    | ColumnRejected      // value too long for its column, or out of the column's range
    | ForeignKeyRejected  // a reference to a missing row, or a delete blocked by RESTRICT
    | DuplicateKey        // a unique index or primary key already holds the value

  datatype Error =
    | HttpError(status: HttpStatus, message: string)
    | StoreError(fault: StoreFault)

  /** The numeric HTTP status of each exception class. */
  function StatusCode(s: HttpStatus): (code: int)
    ensures 400 <= code < 500
  {
    match s
    case BadRequest => 400
    case Unauthorized => 401
    case Forbidden => 403
    case NotFound => 404
    case Conflict => 409
  }

  /** The `error` field the framework puts into the response of each exception class. */
  function ReasonPhrase(s: HttpStatus): string {
    match s
    case BadRequest => "Bad Request"
    case Unauthorized => "Unauthorized"
    case Forbidden => "Forbidden"
    case NotFound => "Not Found"
    case Conflict => "Conflict"
  }
}
