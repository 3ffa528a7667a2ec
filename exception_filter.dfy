/** The global exception filter: every exception that leaves a request
    handler becomes an HTTP status, a `message` and an `error` label. */
module ExceptionFilter {
  import opened Common

  const BAD_REQUEST: int := 400
  const UNAUTHORIZED: int := 401
  const FORBIDDEN: int := 403
  const NOT_FOUND: int := 404
  const INTERNAL_SERVER_ERROR: int := 500

  /** A JSON `message` value: a string, or the list of strings a validation
      failure carries. */
  datatype Payload = Text(s: string) | Texts(items: seq<string>)

  /** JavaScript truthiness of a `message` value: only the empty string is
      falsy; every array is truthy. */
  predicate Truthy(p: Option<Payload>) {
    p.Some? && !(p.value.Text? && p.value.s == "")
  }

  /** What `getResponse()` of an HTTP exception holds. */
  datatype ResponseBody =
    | StringBody(text: string)
    | ObjectBody(message: Option<Payload>, error: Option<string>)
    | OtherBody

  datatype Exception =
    | SyntaxError
    | HttpException(status: int, response: ResponseBody, name: string, message: string)
    | PrismaKnownRequestError(code: string)
    | UnknownException

  /** The fields of the JSON error body that depend on the exception; the
      timestamp, path and method are left out. */
  datatype ErrorResponse = ErrorResponse(statusCode: int, message: Payload, error: string)

  /** The error body for an HTTP exception: its own status, and the message
      and label its response carries, or else its own message and name. */
  function HttpExceptionResponse(status: int, response: ResponseBody, name: string, message: string): (r: ErrorResponse)
    ensures r.statusCode == status
    ensures response.StringBody? ==> r.message == Text(response.text) && r.error == name
    ensures response.ObjectBody? ==>
              && (Truthy(response.message) ==> r.message == response.message.value)
              && (!Truthy(response.message) ==> r.message == Text(message))
              && (Supplied(response.error) ==> r.error == response.error.value)
              && (!Supplied(response.error) ==> r.error == name)
    ensures response.OtherBody? ==> r.message == Text(message) && r.error == name
  {
    match response
    case StringBody(text) => ErrorResponse(status, Text(text), name)
    case ObjectBody(m, e) =>
      ErrorResponse(status, if Truthy(m) then m.value else Text(message), if Supplied(e) then e.value else name)
    case OtherBody => ErrorResponse(status, Text(message), name)
  }

  /** The error body for a database client error with `code`. */
  function PrismaErrorResponse(code: string): (r: ErrorResponse)
    ensures r.error == "Database Error"
    ensures r.statusCode == NOT_FOUND <==> code == RECORD_NOT_FOUND
    ensures r.statusCode != NOT_FOUND ==> r.statusCode == BAD_REQUEST
    ensures code == UNIQUE_VIOLATION ==> r.message == Text("Email or username already exists")
    ensures code == RECORD_NOT_FOUND ==> r.message == Text("Record not found")
    ensures code == FOREIGN_KEY_VIOLATION ==> r.message == Text("Foreign key constraint failed")
    ensures code != UNIQUE_VIOLATION && code != RECORD_NOT_FOUND && code != FOREIGN_KEY_VIOLATION ==>
              r.message == Text("Database operation failed")
  {
    if code == UNIQUE_VIOLATION then ErrorResponse(BAD_REQUEST, Text("Email or username already exists"), "Database Error")
    else if code == RECORD_NOT_FOUND then ErrorResponse(NOT_FOUND, Text("Record not found"), "Database Error")
    else if code == FOREIGN_KEY_VIOLATION then ErrorResponse(BAD_REQUEST, Text("Foreign key constraint failed"), "Database Error")
    else ErrorResponse(BAD_REQUEST, Text("Database operation failed"), "Database Error")
  }

  /** The error body for `exception`. */
  function Classify(exception: Exception): (r: ErrorResponse)
    ensures exception.SyntaxError? ==>
              r == ErrorResponse(BAD_REQUEST, Text("Invalid JSON format. Please check your request body syntax."),
                                 "Bad Request - Invalid JSON")
    ensures exception.HttpException? ==>
              r == HttpExceptionResponse(exception.status, exception.response, exception.name, exception.message)
    ensures exception.PrismaKnownRequestError? ==> r == PrismaErrorResponse(exception.code)
    ensures exception.UnknownException? ==>
              r == ErrorResponse(INTERNAL_SERVER_ERROR, Text("Internal server error"), "Internal Server Error")
  {
    match exception
    case SyntaxError =>
      ErrorResponse(BAD_REQUEST, Text("Invalid JSON format. Please check your request body syntax."),
                    "Bad Request - Invalid JSON")
    case HttpException(status, response, name, message) => HttpExceptionResponse(status, response, name, message)
    case PrismaKnownRequestError(code) => PrismaErrorResponse(code)
    case UnknownException => ErrorResponse(INTERNAL_SERVER_ERROR, Text("Internal server error"), "Internal Server Error")
  }

  function StatusOf(kind: HttpKind): int {
    match kind
    case BadRequest => BAD_REQUEST
    case Unauthorized => UNAUTHORIZED
    case Forbidden => FORBIDDEN
    case NotFound => NOT_FOUND
  }

  function ReasonPhrase(kind: HttpKind): string {
    match kind
    case BadRequest => "Bad Request"
    case Unauthorized => "Unauthorized"
    case Forbidden => "Forbidden"
    case NotFound => "Not Found"
  }

  function ExceptionName(kind: HttpKind): string {
    match kind
    case BadRequest => "BadRequestException"
    case Unauthorized => "UnauthorizedException"
    case Forbidden => "ForbiddenException"
    case NotFound => "NotFoundException"
  }

  /** The exception a service failure is thrown as: the framework's HTTP
      exceptions built from a message put `{ message, error: <reason phrase> }`
      in their response, and, built from an empty or undefined message (`""`
      here), only `{ message: <reason phrase> }`; store failures surface as
      the database client's errors; anything else is an unknown error. */
  function ToException(failure: Failure, text: string): (e: Exception)
    ensures failure.Http? ==> e.HttpException? && e.status == StatusOf(failure.kind)
    ensures failure.PrismaKnown? ==> e == PrismaKnownRequestError(failure.code)
    ensures failure.Unexpected? ==> e == UnknownException
  {
    match failure
    case Http(kind) =>
      if text == "" then
        HttpException(StatusOf(kind), ObjectBody(Some(Text(ReasonPhrase(kind))), None), ExceptionName(kind), ReasonPhrase(kind))
      else
        HttpException(StatusOf(kind), ObjectBody(Some(Text(text)), Some(ReasonPhrase(kind))), ExceptionName(kind), text)
    case PrismaKnown(code) => PrismaKnownRequestError(code)
    case Unexpected => UnknownException
  }

  /** The status a service failure reaches the client with. */
  lemma FailureStatus(failure: Failure, text: string)
    ensures var r := Classify(ToException(failure, text));
            && (failure == Http(NotFound) ==> r.statusCode == 404)
            && (failure == Http(Forbidden) ==> r.statusCode == 403)
            && (failure == Http(Unauthorized) ==> r.statusCode == 401)
            && (failure == Http(BadRequest) ==> r.statusCode == 400)
            && (failure == PrismaKnown(UNIQUE_VIOLATION) ==> r.statusCode == 400)
            && (failure == PrismaKnown(FOREIGN_KEY_VIOLATION) ==> r.statusCode == 400)
            && (failure == PrismaKnown(RECORD_NOT_FOUND) ==> r.statusCode == 404)
            && (failure == Unexpected ==> r.statusCode == 500)
            && (failure.Http? && text != "" ==> r.message == Text(text) && r.error == ReasonPhrase(failure.kind))
            && (failure.Http? && text == "" ==>
                  r.message == Text(ReasonPhrase(failure.kind)) && r.error == ExceptionName(failure.kind))
  {
  }

  /** Every error body the filter produces has a status of 400 or more: no
      exception is answered as a success. */
  lemma ErrorStatusesAreErrors(failure: Failure, text: string)
    ensures Classify(ToException(failure, text)).statusCode >= 400
  {
  }
}
