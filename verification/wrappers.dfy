/** Failure-carrying values used throughout the model in place of Python exceptions. */
module Wrappers {

  /** A value that may be absent (Python's `Optional`). */
  datatype Option<+T> = None | Some(value: T)

  /** Either a successful value or the error that was raised. */
  datatype Result<+R, +E> = Success(value: R) | Failure(error: E)

  /** The outcome of a check that returns nothing on success and raises on failure. */
  datatype Outcome<+E> = Pass | Fail(error: E)
}
