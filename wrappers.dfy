/** Failure-compatible result types used for the service's nullable returns and exceptions. */
module Wrappers {

  /** A value that may be absent (the source's nullable references). */
  datatype Option<+T> = None | Some(value: T)

  /** A value or the error that the source would throw instead of returning it. */
  datatype Result<+R, +E> = Success(value: R) | Failure(error: E)

  /** Success without a value, or the error the source would throw. */
  datatype Outcome<+E> = Pass | Fail(error: E)
}
