/** Optional values and results with an error, shared by every module of the model. */
module Wrappers {

  /** A value that may be absent: `undefined` / `null` in the original, or a failed parse. */
  datatype Option<+T> = None | Some(value: T)

  /** The outcome of an operation that can fail with an error of type `E`. */
  datatype Result<+T, +E> = Success(value: T) | Failure(error: E)
}
