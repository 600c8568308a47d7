/** Failure-carrying values used across the model: Python's `None` and raised exceptions. */
module Wrappers {

  /** A value that may be absent (Python `Optional`). */
  datatype Option<+T> = None | Some(value: T)

  /** The outcome of a call that may raise: the value it returns, or the message of the exception. */
  datatype Result<+T> = Success(value: T) | Failure(error: string)
}
