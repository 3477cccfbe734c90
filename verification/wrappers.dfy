/** Failure-compatible outcome types used for the roster's operations. */
module Wrappers {

  /** An optional value; stands for a Java reference that may be null. */
  datatype Option<+T> = None | Some(value: T)

  /** Either the value an operation produced or the error it raised. */
  datatype Result<+T, +E> = Success(value: T) | Failure(error: E)
}
