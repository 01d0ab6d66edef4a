/** Optional values and results shared by the modules of this model. */
module Outcome {

  /** A value that may be absent: Python's `None`, or an operation on the page that raised. */
  datatype Option<+T> = None | Some(value: T)

  /** The value an operation returns, or the exception it raises. */
  datatype Result<+T, +E> = Ok(value: T) | Err(error: E)
}
