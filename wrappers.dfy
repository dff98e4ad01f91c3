/** The Option and Result datatypes used across the model. */
module Wrappers {

  /** A value that may be absent: Java's `null` / `Optional.empty()`. */
  datatype Option<+T> = None | Some(value: T)

  /** The outcome of an operation that may throw. */
  datatype Result<+R, +E> = Success(value: R) | Failure(error: E)
}
