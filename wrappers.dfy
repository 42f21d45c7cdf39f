/** Failure-compatible wrappers: a nullable reference becomes an Option, a call that may throw
    returns a Result. */
module Wrappers {

  datatype Option<+T> = None | Some(value: T)

  datatype Result<+R, +E> = Success(value: R) | Failure(error: E)
}
