/** Optional values and results with an error, as the TypeScript code returns
    `T | undefined` and throws. */
module Wrappers {

  /** `undefined` (None) or a value (Some). */
  datatype Option<+T> = None | Some(value: T)

  /** A value, or the error a failing operation propagates. */
  datatype Result<+T, +E> = Success(value: T) | Failure(error: E)
}
