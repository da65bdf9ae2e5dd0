/** Failure-carrying results shared by every module of the model. */
module Wrappers {

  /** A value that may be absent: Python's None, or a query that returns no row. */
  datatype Option<+T> = None | Some(value: T)

  /** A call that either returns a value or raises. */
  datatype Result<+T, +E> = Ok(value: T) | Err(error: E)
}
