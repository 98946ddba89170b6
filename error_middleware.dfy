/**
 * The error envelope of the API (backend/src/middleware/error.middleware.ts):
 * `createError` builds an error carrying an HTTP status, and `errorHandler`
 * turns any error that reaches it into a status and a JSON body.
 */
module ErrorMiddleware {
  import opened Base

  /**
   * An `Error` object as it reaches the handler. `statusCode` is absent for
   * errors thrown by libraries; `stack` is what the runtime recorded.
   */
  datatype AppError = AppError(message: string, statusCode: Option<int>, stack: Option<string>)

  /** The outcome of a service call: a value, or the error it throws. */
  datatype Result<+T> = Ok(value: T) | Fail(error: AppError)

  /** The JSON body the handler sends. `success` is a field because the source sends it. */
  datatype ErrorBody = ErrorBody(success: bool, error: string, details: Option<string>)

  datatype ErrorResponse = ErrorResponse(status: int, body: ErrorBody)

  const GenericMessage := "Error interno del servidor"
  const FallbackMessage := "Algo salió mal"

  /** The first line of the stack the runtime records for `new Error(message)`; frames are not modelled. */
  function StackOf(message: string): string {
    "Error: " + message
  }

  /** An error thrown with `new Error(message)`: it has no status code. */
  function PlainError(message: string): (e: AppError)
    ensures e.message == message && e.statusCode.None? && e.stack.Some?
  {
    AppError(message, None, Some(StackOf(message)))
  }

  /** `createError(message, statusCode = 400)`. */
  function CreateError(message: string, statusCode: int := 400): (e: AppError)
    ensures e.message == message && e.statusCode == Some(statusCode) && e.stack.Some?
  {
    AppError(message, Some(statusCode), Some(StackOf(message)))
  }

  /** `err.statusCode || 500`: an absent or zero status becomes 500. */
  function StatusOf(err: AppError): (status: int)
    ensures status != 0
    ensures (err.statusCode.Some? && err.statusCode.value != 0) ==> status == err.statusCode.value
    ensures (err.statusCode.None? || err.statusCode.value == 0) ==> status == 500
  {
    match err.statusCode
    case Some(code) => if code != 0 then code else 500
    case None => 500
  }

  /** `errorHandler(err, ...)` with `production` standing for `NODE_ENV === 'production'`. */
  function ErrorHandler(err: AppError, production: bool): (r: ErrorResponse)
    ensures r.status == StatusOf(err)
    ensures !r.body.success
    ensures r.status == 500 && production ==> r.body.error == GenericMessage
    ensures !(r.status == 500 && production) && err.message != "" ==> r.body.error == err.message
    ensures !(r.status == 500 && production) && err.message == "" ==> r.body.error == FallbackMessage
    ensures r.body.details.Some? <==> !production && err.stack.Some? && err.stack.value != ""
    ensures r.body.details.Some? ==> r.body.details == err.stack
  {
    var status := StatusOf(err);
    var error :=
      if status == 500 && production then GenericMessage
      else if err.message != "" then err.message
      else FallbackMessage;
    var details := if !production && err.stack.Some? && err.stack.value != "" then err.stack else None;
    ErrorResponse(status, ErrorBody(false, error, details))
  }

  /** An error made by `createError` reaches the client with its own status and message. */
  lemma CreatedErrorKeepsStatusAndMessage(message: string, status: int, production: bool)
    requires status != 0 && status != 500 && message != ""
    ensures ErrorHandler(CreateError(message, status), production).status == status
    ensures ErrorHandler(CreateError(message, status), production).body.error == message
  {
  }

  /** In production a status-less error never shows its own message or stack. */
  lemma ProductionHidesInternalErrors(err: AppError)
    requires err.statusCode.None?
    ensures ErrorHandler(err, true) == ErrorResponse(500, ErrorBody(false, GenericMessage, None))
  {
  }
}
