/** Optional values and results with an error side, as used by the handler model. */
module Wrappers {

  /** A value that may be missing: an absent request argument, a failed parse. */
  datatype Option<+T> = None | Some(value: T)

  /** The outcome of a step that either produces a value or stops with an error. */
  datatype Result<+R, +E> = Success(value: R) | Failure(error: E)
}
