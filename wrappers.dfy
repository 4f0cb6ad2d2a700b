/** Failure-compatible wrappers: a nullable reference becomes an Option, a call
    that may throw becomes a Result (or an Outcome when it returns nothing). */
module Wrappers {

  datatype Option<+T> = None | Some(value: T)

  datatype Result<+T, +E> = Success(value: T) | Failure(error: E)

  datatype Outcome<+E> = Pass | Fail(error: E)
}
