/** Option and Result, the two wrapper types the model returns. */
module Wrappers {

  /** A value that may be absent: Python's `None` or a present value. */
  datatype Option<T> = None | Some(value: T)

  /** The outcome of an operation that may raise instead of returning. */
  datatype Result<T, E> = Ok(value: T) | Err(error: E)
}
