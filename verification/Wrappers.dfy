/** Failure-compatible result types shared by the models. */
module Wrappers {

  datatype Option<+T> = None | Some(value: T)

  /** A Go `(T, error)` pair in which the value is meaningful only without an error. */
  datatype Result<+T, +E> = Success(value: T) | Failure(error: E)
}
