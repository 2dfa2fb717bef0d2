/** The backend's error responses: the API error type and its factories,
    the global handler that turns any thrown error into a JSON answer, and
    the answer for an unknown route. */
module ErrorHandler {
  import opened Common

  /** One problem with one input field. */
  datatype FieldError = FieldError(field: string, message: string)

  /** A thrown error as the handler sees it: an `ApiError` carries a status
      and a code, a plain error (from the database, say) carries neither. */
  datatype AppError = AppError(message: string, statusCode: Option<int>, code: Option<string>,
                               details: Option<seq<FieldError>>)

  /** What a middleware does: hand on to the next one, or hand an error to
      the error handler. */
  datatype Next = Continue | Fail(err: AppError)

  /** The JSON body of an error answer. */
  datatype ErrorBody = ErrorBody(error: string, message: string, code: Option<string>,
                                 details: Option<seq<FieldError>>, stack: Option<string>)

  const InternalLabel := "Internal Server Error"
  const RequestLabel := "Request Error"
  const GenericMessage := "An unexpected error occurred"

  /** `err.statusCode || 500`: a missing or zero status is a server error. */
  function StatusOf(err: AppError): (s: int)
    ensures err.statusCode.Some? && err.statusCode.value != 0 ==> s == err.statusCode.value
    ensures err.statusCode.None? || err.statusCode.value == 0 ==> s == 500
  {
    if err.statusCode.Some? && err.statusCode.value != 0 then err.statusCode.value else 500
  }

  /** `errorHandler`: the status and the body. `stack` is the trace the
      runtime recorded for the error, if any. */
  function HandleError(err: AppError, production: bool, stack: Option<string>): (r: (int, ErrorBody))
    ensures r.0 == StatusOf(err)
    ensures r.1.error == InternalLabel <==> r.0 >= 500
    ensures r.1.error == RequestLabel <==> r.0 < 500
    ensures production && r.0 >= 500 ==> r.1.message == GenericMessage
    ensures !(production && r.0 >= 500) ==> r.1.message == err.message
    ensures r.1.code == err.code && r.1.details == err.details
    ensures r.1.stack.Some? <==> !production && Truthy(stack)
    ensures r.1.stack.Some? ==> r.1.stack == stack
  {
    var status := StatusOf(err);
    (status, ErrorBody(if status >= 500 then InternalLabel else RequestLabel,
                       if production && status >= 500 then GenericMessage else err.message,
                       err.code,
                       err.details,
                       if !production && Truthy(stack) then stack else None))
  }

  /** `new ApiError(message, statusCode = 500, code, details)`. */
  function NewApiError(message: string, statusCode: Option<int>, code: Option<string>, details: Option<seq<FieldError>>)
    : (e: AppError)
    ensures e.message == message && e.code == code && e.details == details
    ensures e.statusCode == Some(if statusCode.Some? then statusCode.value else 500)
  {
    AppError(message, Some(statusCode.GetOr(500)), code, details)
  }

  function BadRequest(message: string, details: Option<seq<FieldError>>): AppError {
    NewApiError(message, Some(400), Some("BAD_REQUEST"), details)
  }

  function Unauthorized(message: Option<string>): AppError {
    NewApiError(message.GetOr("Unauthorized"), Some(401), Some("UNAUTHORIZED"), None)
  }

  function Forbidden(message: Option<string>): AppError {
    NewApiError(message.GetOr("Forbidden"), Some(403), Some("FORBIDDEN"), None)
  }

  function NotFound(message: Option<string>): AppError {
    NewApiError(message.GetOr("Resource not found"), Some(404), Some("NOT_FOUND"), None)
  }

  function Conflict(message: string): AppError {
    NewApiError(message, Some(409), Some("CONFLICT"), None)
  }

  function TooManyRequests(message: Option<string>): AppError {
    NewApiError(message.GetOr("Too many requests"), Some(429), Some("RATE_LIMIT_EXCEEDED"), None)
  }

  function Internal(message: Option<string>): AppError {
    NewApiError(message.GetOr("Internal server error"), Some(500), Some("INTERNAL_ERROR"), None)
  }

  /** Each factory's error is answered with its own status and code; the
      client errors keep their message even in production, and only the
      bad request carries details. */
  lemma FactoriesAnswer(m: string, om: Option<string>, d: Option<seq<FieldError>>, production: bool, stack: Option<string>)
    ensures HandleError(BadRequest(m, d), production, stack).0 == 400
            && HandleError(BadRequest(m, d), production, stack).1
               == ErrorBody(RequestLabel, m, Some("BAD_REQUEST"), d, HandleError(BadRequest(m, d), production, stack).1.stack)
    ensures var r := HandleError(Unauthorized(om), production, stack);
            r.0 == 401 && r.1.code == Some("UNAUTHORIZED") && r.1.message == om.GetOr("Unauthorized") && r.1.details.None?
    ensures var r := HandleError(Forbidden(om), production, stack);
            r.0 == 403 && r.1.code == Some("FORBIDDEN") && r.1.message == om.GetOr("Forbidden") && r.1.details.None?
    ensures var r := HandleError(NotFound(om), production, stack);
            r.0 == 404 && r.1.code == Some("NOT_FOUND") && r.1.message == om.GetOr("Resource not found")
    ensures var r := HandleError(Conflict(m), production, stack);
            r.0 == 409 && r.1.code == Some("CONFLICT") && r.1.message == m
    ensures var r := HandleError(TooManyRequests(om), production, stack);
            r.0 == 429 && r.1.code == Some("RATE_LIMIT_EXCEEDED") && r.1.message == om.GetOr("Too many requests")
    ensures var r := HandleError(Internal(om), production, stack);
            r.0 == 500 && r.1.code == Some("INTERNAL_ERROR") && r.1.error == InternalLabel
            && r.1.message == (if production then GenericMessage else om.GetOr("Internal server error"))
  {
  }

  /** An error that is not an `ApiError`, such as a database failure, is a
      server error whose text never reaches a client in production. */
  lemma PlainErrorsAreHidden(message: string, stack: Option<string>)
    ensures var r := HandleError(AppError(message, None, None, None), true, stack);
            r == (500, ErrorBody(InternalLabel, GenericMessage, None, None, None))
  {
  }

  datatype NotFoundBody = NotFoundBody(error: string, message: string, code: string)

  /** `notFoundHandler`: 404, naming the method and the path. */
  function NotFoundHandler(verb: string, path: string): (r: (int, NotFoundBody))
    ensures r.0 == 404 && r.1.error == "Not Found" && r.1.code == "ROUTE_NOT_FOUND"
    ensures |r.1.message| == |verb| + |path| + 17
  {
    (404, NotFoundBody("Not Found", "Route " + verb + " " + path + " not found", "ROUTE_NOT_FOUND"))
  }

  /** The method and the path can be read back from the message. */
  lemma NotFoundNamesTheRoute(verb: string, path: string)
    ensures var m := NotFoundHandler(verb, path).1.message;
            m[6..6 + |verb|] == verb && m[7 + |verb|..|m| - 10] == path
  {
    var m := NotFoundHandler(verb, path).1.message;
    assert m == "Route " + verb + " " + path + " not found";
    assert m[6..6 + |verb|] == verb;
    assert m[7 + |verb|..|m| - 10] == path;
  }
}
