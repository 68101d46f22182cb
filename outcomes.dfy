/** Option and Result, the two failure-carrying wrappers used throughout the model. */
module Outcomes {

  datatype Option<+T> = None | Some(value: T)

  /** `Ok` is a successful return, `Err` a raised error (a Python exception or a Rust panic). */
  datatype Result<+T, +E> = Ok(value: T) | Err(error: E)
}
