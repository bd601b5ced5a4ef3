/** Option and Result, used for lookups that may miss and for operations that may raise. */
module Wrappers {

  /** A value that may be absent: a SQL NULL, a missing row, a key the response leaves out. */
  datatype Option<+T> = None | Some(value: T)

  /** The outcome of an operation that either returns a value or raises an error. */
  datatype Result<+T, +E> = Success(value: T) | Failure(error: E)
}
