/** Failure-carrying result types used across the model. */
module Wrappers {

  datatype Option<+T> = None | Some(value: T)

  datatype Result<+R, +E> = Ok(value: R) | Err(error: E)

  /** An operation that returns nothing on success and raises `error` otherwise. */
  datatype Outcome<+E> = Pass | Fail(error: E)
}
