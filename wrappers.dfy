/** Optional values and results with an error, shared by the other modules. */
module Wrappers {

  datatype Option<+T> = None | Some(value: T)

  /** A value, or the exception the source raises instead of returning one. */
  datatype Result<+R, +E> = Success(value: R) | Failure(error: E)
}
