/** Option and Result, the shapes the model uses for absent values and for raised errors. */
module Wrappers {

  datatype Option<+T> = None | Some(value: T)

  /** A computation that either produces a value or fails with an error (a Python exception). */
  datatype Result<+T, +E> = Success(value: T) | Failure(error: E)
}
