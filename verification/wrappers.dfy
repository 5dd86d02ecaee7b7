/** Failure-carrying datatypes shared by the other modules. */
module Wrappers {

  /** A cell that may be absent (a NaN in the source's data frames). */
  datatype Option<+T> = None | Some(value: T)

  /** The outcome of an operation that can abort with an error value. */
  datatype Result<+T, +E> = Success(value: T) | Failure(error: E)
}
