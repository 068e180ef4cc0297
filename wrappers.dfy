/** Option and Result, the stand-ins for Java's null / Optional and for thrown exceptions. */
module Wrappers {

  datatype Option<+T> = None | Some(value: T)

  datatype Result<+R, +E> = Success(value: R) | Failure(error: E)

  /** The outcome of a `void` method that may throw. */
  datatype Outcome<+E> = Pass | Fail(error: E)
}
