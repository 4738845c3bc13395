/** Failure-carrying results and optional values shared by every module. */
module Wrappers {

  datatype Option<+T> = None | Some(value: T)

  /** What a service call returns: a value, or the error the service raises. */
  datatype Result<+T, +E> = Ok(value: T) | Err(error: E)

  /** What a service call that only changes state returns. */
  datatype Outcome<+E> = Pass | Fail(error: E)
}
