/** Optional values and results, shared by every module of the model. */
module Wrappers {

  /** A value that may be absent (a JavaScript property that is `undefined`). */
  datatype Option<T> = None | Some(value: T)

  /** The outcome of a computation that either returns a value or throws. */
  datatype Result<T, E> = Ok(value: T) | Err(error: E)
}
