/** Option and Result types shared by every module of the model. */
module Wrappers {

  datatype Option<+T> = None | Some(value: T)

  /** The outcome of an operation that raises an exception in the original program. */
  datatype Result<+T, +E> = Ok(value: T) | Err(error: E)
}
