/** Failure-carrying datatypes shared by the plan-graph model. */
module Wrappers {

  /** A value that may be absent (Java's nullable reference). */
  datatype Option<+T> = None | Some(value: T)

  /** The outcome of an operation that either succeeds or throws. */
  datatype Result<+T, +E> = Success(value: T) | Failure(error: E)
}
