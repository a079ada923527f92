/** Option and Result, the failure-carrying values used throughout the model. */
module Wrappers {

  /** A value that may be absent: Python's `Optional[T]`, or an operation that can fail silently. */
  datatype Option<+T> = None | Some(value: T)

  /** The outcome of an operation that either produces a value or fails with an error. */
  datatype Result<+T, +E> = Success(value: T) | Failure(error: E)
}
