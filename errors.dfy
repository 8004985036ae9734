/** Error values of the console (the `er.AppError` built by `er.NewAppErr`) and the
    Option/Result wrappers the model uses in place of Go's `(value, error)` pairs. */
module Errors {

  datatype Option<+T> = None | Some(value: T)

  datatype Result<+T> = Success(value: T) | Failure(error: AppError)

  /** The application error codes the core uses. */
  datatype ErrorCode = ErrorParamInvalid | UnknownError | ResourceNotFoundError

  /** An application error: HTTP status, application code and message. The wrapped
      cause is not modelled. */
  datatype AppError = AppError(status: int, code: ErrorCode, message: string)

  const StatusBadRequest: int := 400
  const StatusInternalServerError: int := 500

  /** 400 / ErrorParamInvalid: a malformed or unknown scope. */
  function ParamInvalid(message: string): AppError
  {
    AppError(StatusBadRequest, ErrorParamInvalid, message)
  }

  /** 500 / UnknownError: a store call failed. */
  function Unknown(message: string): AppError
  {
    AppError(StatusInternalServerError, UnknownError, message)
  }

  /** 400 / ResourceNotFoundError: a missing account, client or scope, or a duplicate. */
  function NotFound(message: string): AppError
  {
    AppError(StatusBadRequest, ResourceNotFoundError, message)
  }
}
