/** Optional values and error-carrying results. */
module Wrappers {

  /** A value that may be absent (JavaScript's `undefined`). */
  datatype Option<+T> = None | Some(value: T)

  /** The outcome of a computation that may throw: its value, or the thrown message. */
  datatype Result<+T> = Success(value: T) | Failure(error: string)
}
