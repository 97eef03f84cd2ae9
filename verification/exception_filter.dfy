/**
  The global exception filter: whatever a request handler throws becomes a
  status code and a JSON body. HTTP exceptions keep their status and, where
  their response has the expected shape, their message and error text; any
  other exception is a 500 with a fixed message.
 */
module ExceptionFilter {
  import opened Wrappers
  import opened Errors

  const INTERNAL_SERVER_ERROR := 500
  const INTERNAL_MESSAGE := "Internal server error"

  /** A property of the exception's response object, by its JavaScript type. */
  datatype Field = Str(text: string) | Arr(items: seq<string>) | OtherValue

  /** `exception.getResponse()`: a string, a non-null object, or anything else (`null`, a number). */
  datatype ExceptionResponse =
    | TextResponse(text: string)
    | ObjectResponse(message: Field, error: Field)
    | OtherResponse

  /** What was thrown: an `HttpException` with its status, or anything else. */
  datatype Thrown = HttpException(status: int, response: ExceptionResponse) | NonHttp

  datatype Message = One(text: string) | Many(items: seq<string>)

  /** The body sent back; the timestamp is left out. */
  datatype ErrorBody = ErrorBody(statusCode: int, path: string, httpMethod: string, message: Message, error: Option<string>)

  /** The message and error text taken from an HTTP exception's response. */
  function Extract(response: ExceptionResponse): (r: (Message, Option<string>))
    ensures response.TextResponse? ==> r == (One(response.text), None)
    ensures response.OtherResponse? ==> r == (One(INTERNAL_MESSAGE), None)
    ensures response.ObjectResponse? ==>
              && r.0 == (match response.message
                         case Str(t) => One(t)
                         case Arr(items) => Many(items)
                         case OtherValue => One(INTERNAL_MESSAGE))
              && (r.1.Some? <==> response.error.Str?)
              && (r.1.Some? ==> r.1.value == response.error.text)
  {
    match response
    case TextResponse(text) => (One(text), None)
    case ObjectResponse(msg, err) =>
      var message := if msg.Str? then One(msg.text) else if msg.Arr? then Many(msg.items) else One(INTERNAL_MESSAGE);
      var error := if err.Str? then Some(err.text) else None;
      (message, error)
    case OtherResponse => (One(INTERNAL_MESSAGE), None)
  }

  /**
    `catch(exception, host)`: the status sent and the body, for a request to
    `path` with `httpMethod`. The body's `statusCode` is always the status sent.
   */
  function Catch(e: Thrown, path: string, httpMethod: string): (r: (int, ErrorBody))
    ensures r.0 == r.1.statusCode
    ensures r.0 == (if e.HttpException? then e.status else INTERNAL_SERVER_ERROR)
    ensures r.1.path == path && r.1.httpMethod == httpMethod
    ensures e.NonHttp? ==> r.1.message == One(INTERNAL_MESSAGE) && r.1.error.None?
    ensures e.HttpException? ==> (r.1.message, r.1.error) == Extract(e.response)
  {
    var status := if e.HttpException? then e.status else INTERNAL_SERVER_ERROR;
    var (message, error) := if e.HttpException? then Extract(e.response) else (One(INTERNAL_MESSAGE), None);
    (status, ErrorBody(status, path, httpMethod, message, error))
  }

  /**
    How the model's errors are thrown: a service's HTTP exception is built
    from a message, so its response is `{ statusCode, message, error }` with
    the status's reason phrase as `error`; a refused database statement is
    not an HTTP exception.
   */
  function Raise(e: Error): (t: Thrown)
    ensures e.HttpError? <==> t.HttpException?
    ensures e.HttpError? ==> t.status == StatusCode(e.status)
  {
    match e
    case HttpError(status, message) => HttpException(StatusCode(status), ObjectResponse(Str(message), Str(ReasonPhrase(status))))
    case StoreError(_) => NonHttp
  }

  /**
    What the client sees of a service error: the status code, the service's
    message and the reason phrase for an HTTP error; a 500 with the fixed
    message and no error text for a refused database statement.
   */
  lemma ClientSees(e: Error, path: string, httpMethod: string)
    ensures var (status, body) := Catch(Raise(e), path, httpMethod);
            && (e.HttpError? ==> status == StatusCode(e.status) && body.message == One(e.message)
                                 && body.error == Some(ReasonPhrase(e.status)))
            && (e.StoreError? ==> status == INTERNAL_SERVER_ERROR && body.message == One(INTERNAL_MESSAGE)
                                  && body.error.None?)
  {
  }

  /** Client errors and server errors never mix: a 4xx comes only from a service's HTTP error. */
  lemma ClientErrorsAreHttpErrors(e: Error, path: string, httpMethod: string)
    ensures Catch(Raise(e), path, httpMethod).0 < 500 <==> e.HttpError?
  {
  }
}
