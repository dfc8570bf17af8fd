/** Optional values and results, standing in for Python's `None` and for raised errors. */
module Wrappers {

  /** A nullable value: `None` is Python's `None` (or a missing dictionary key read with `get`). */
  datatype Option<+T> = None | Some(value: T)

  /** The outcome of an operation that either returns a value or fails with an error. */
  datatype Result<+T, +E> = Ok(value: T) | Err(error: E)
}
