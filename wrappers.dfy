/** Failure-carrying return types, standing in for Java's null results and exceptions. */
module Wrappers {

  /** A value that may be missing: a nullable reference or an empty java.util.Optional. */
  datatype Option<+T> = None | Some(value: T)

  /** A result or the error that was thrown instead of returning it. */
  datatype Result<+T, +E> = Success(value: T) | Failure(error: E)

  /** The outcome of an operation that returns nothing (Java `void`) or throws. */
  datatype Outcome<+E> = Pass | Fail(error: E)
}
