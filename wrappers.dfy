/** Failure-carrying results for the checked accessors. */
module Wrappers {

  /** Either a value or the error that replaced it. */
  datatype Result<+T, +E> = Ok(value: T) | Err(error: E)

  /** Success, or the error an operation without a value raised. */
  datatype Outcome<+E> = Pass | Fail(error: E)
}
