/** Optional values and outcomes shared by the other modules. */
module Wrappers {

  /** A value that may be absent (Python's `Optional`, `None` included). */
  datatype Option<+T> = None | Some(value: T)

  /** The outcome of an operation that can raise. */
  datatype Result<+T, +E> = Success(value: T) | Failure(error: E)
}
