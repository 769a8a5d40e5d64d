/** Optional values and call outcomes, shared by every module of the storefront model. */
module Wrappers {

  /** A value that may be absent: the model's stand-in for a C# null reference. */
  datatype Option<+T> = None | Some(value: T)

  /** The outcome of a storage call that can throw. */
  datatype Result<+R, +E> = Success(value: R) | Failure(error: E)
}
