/** Optional values and results for JavaScript's null/undefined and thrown errors. */
module Wrappers {

  /** A value that may be absent (undefined or null in the source). */
  datatype Option<+T> = None | Some(value: T)

  /** The outcome of an operation that may throw: the value, or the error message. */
  datatype Result<+T> = Success(value: T) | Failure(error: string)
}
