/** Option and Result values used throughout the model. */
module Wrappers {

  datatype Option<+T> = None | Some(value: T)

  /** The outcome of an operation that may raise: Failure carries what was raised. */
  datatype Result<+R, +E> = Success(value: R) | Failure(error: E)
}
