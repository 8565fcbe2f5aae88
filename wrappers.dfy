/** Optional values and results with an error: Python's `None` and its raised exceptions. */
module Wrappers {

  /** A value that may be Python's `None`. */
  datatype Option<+T> = None | Some(value: T)

  /** The outcome of a Python call: a returned value, or the exception it raised. */
  datatype Result<+T, +E> = Success(value: T) | Failure(error: E)
}
