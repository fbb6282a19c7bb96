/** Option and Result, the two failure-compatible wrappers the model uses. */
module Wrappers {

  /** Python's `None` or a value. */
  datatype Option<+T> = None | Some(value: T)

  /** A Python call that returns a value or raises. */
  datatype Result<+T, +E> = Success(value: T) | Failure(error: E)
}
