/** Failure-compatible wrappers used for the source's optional values and raised errors. */
module Wrappers {

  /** A value that may be absent (Python's `None`). */
  datatype Option<+T> = None | Some(value: T)

  /** Either a result or the error the source would raise. */
  datatype Result<+R, +E> = Success(value: R) | Failure(error: E)
}
