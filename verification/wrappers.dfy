/** Failure-carrying results used wherever the modelled code throws. */
module Wrappers {

  /** An operation that either produces a value or fails with an error. */
  datatype Result<+T, +E> = Success(value: T) | Failure(error: E)

  /** An operation that produces no value but may fail. */
  datatype Outcome<+E> = Pass | Fail(error: E)

  datatype Option<+T> = None | Some(value: T)
}
