/** Option and Result, the failure-carrying wrappers used throughout the model. */
module Wrappers {

  datatype Option<+T> = None | Some(value: T)

  /** Either a value or the error that the Go code returns in its `error` slot. */
  datatype Result<+T, +E> = Ok(value: T) | Err(error: E)
}
