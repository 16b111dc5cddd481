/** Failure-carrying values used throughout the model in place of Go's `(T, error)` returns. */
module Wrappers {

  datatype Option<+T> = None | Some(value: T)

  /** A value or the text of the Go error that was returned instead. */
  datatype Result<+T> = Success(value: T) | Failure(error: string)

  /** The result of a call that returns only `error`: nil (Pass) or an error message. */
  datatype Outcome = Pass | Fail(message: string)
}
