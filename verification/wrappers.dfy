/** Failure-carrying datatypes used by the store's operations. */
module Wrappers {

  datatype Option<+T> = None | Some(value: T)

  datatype Result<+R, +E> = Success(value: R) | Failure(error: E)

  /** An operation that returns nothing on success, or an error. */
  datatype Outcome<+E> = Pass | Fail(error: E)
}
