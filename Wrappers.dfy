/** Option and Result, the shapes in which lookups and fallible operations answer. */
module Wrappers {

  /** A lookup that may find nothing: std::optional in the source. */
  datatype Option<+T> = None | Some(value: T)

  /** An operation that may fail: an exception in the source. */
  datatype Result<+R, +E> = Success(value: R) | Failure(error: E)
}
