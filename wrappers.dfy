/** Optional values and results, shared by every module of the model. */
module Wrappers {

  /** A value that may be absent (Python's `None`, a JavaScript `undefined`). */
  datatype Option<+T> = None | Some(value: T)

  /** The outcome of an operation that raises in the original program. */
  datatype Result<+T, +E> = Ok(value: T) | Err(error: E)
}
