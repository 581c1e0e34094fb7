/** Optional values and results with an error case. */
module Wrappers {

  /** A value that may be missing: Python's `None`/`False` for an unset field. */
  datatype Option<+T> = None | Some(value: T)

  /** The outcome of an operation that can fail with an error of type E. */
  datatype Result<+R, +E> = Success(value: R) | Failure(error: E)
}
