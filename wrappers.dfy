/** Option and Result, the failure-carrying values used throughout the model. */
module Wrappers {

  /** A value that may be absent (Python's `Optional[T]`, where `None` is absent). */
  datatype Option<+T> = None | Some(value: T)

  /** The outcome of an operation that either succeeds or raises an error. */
  datatype Result<+R, +E> = Success(value: R) | Failure(error: E)
}
