/** Optional values and results with an error, for JavaScript's `undefined` and thrown exceptions. */
module Wrappers {

  /** A value that may be missing (`undefined`, `null`, or a request that threw). */
  datatype Option<+T> = None | Some(value: T)

  /** A computation that either returns a value or throws an error. */
  datatype Result<+T, +E> = Ok(value: T) | Err(error: E)
}
