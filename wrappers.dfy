/** Optional values and call outcomes, shared by the other modules. */
module Wrappers {

  /** A value that may be absent, like a Python value that may be `None`. */
  datatype Option<+T> = None | Some(value: T)

  /** The outcome of a call that either returns a value or raises an error. */
  datatype Result<+T, +E> = Success(value: T) | Failure(error: E)
}
