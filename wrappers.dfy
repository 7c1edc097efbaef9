/** Optional values and outcomes that may carry an error, shared by the other modules. */
module Wrappers {

  datatype Option<+T> = None | Some(value: T)

  /** The outcome of a step of the script that may raise: the value it produces, or the error it raises. */
  datatype Result<+R, +E> = Success(value: R) | Failure(error: E)
}
