/** Failure values of the service layer. */
module Errors {

  /** AppError is the service layer's own exception: a message and the HTTP
      status the web layer answers with (400 unless stated otherwise). The
      web layer's own refusals (401 without a session, 403 for a missing
      role) are HTTP exceptions of the same shape and reuse it.
      Uncaught stands for any other Python exception raised inside an
      operation (a malformed or out-of-range date); the request then ends
      without a commit, so nothing the operation wrote survives. */
  datatype Error =
    | AppError(message: string, status: int)
    | Uncaught(message: string)

  datatype Option<T> = None | Some(value: T)

  /** The outcome of an operation; usable with `:-`. */
  datatype Result<T> = Ok(value: T) | Err(error: Error) {
    predicate IsFailure() {
      Err?
    }

    function PropagateFailure<U>(): Result<U>
      requires Err?
    {
      Err(error)
    }

    function Extract(): T
      requires Ok?
    {
      value
    }
  }

  function Fail<T>(message: string, status: int): Result<T> {
    Err(AppError(message, status))
  }

  /** The operation raised an AppError with the given HTTP status. */
  predicate FailsWith<T>(r: Result<T>, status: int) {
    r.Err? && r.error.AppError? && r.error.status == status
  }
}
