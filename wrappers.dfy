/** Option and Result, the two failure-carrying shapes the model needs. */
module Wrappers {

  /** A value that may be absent: Python's `None` or a found object. */
  datatype Option<+T> = None | Some(value: T)

  /** The outcome of a step that may raise: a value or the exception's message. */
  datatype Result<+R, +E> = Success(value: R) | Failure(error: E)
}
