/** Option and Result, the error-carrying values used throughout the model. */
module Wrappers {

  /** An optional value: Python's `None` or a present value. */
  datatype Option<+T> = None | Some(value: T)

  /** Either a value or the exception that aborted the computation. */
  datatype Result<+T, +E> = Ok(value: T) | Err(error: E)
}
