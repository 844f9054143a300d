/** The Option and Result datatypes shared by every module of the model. */
module Wrappers {

  /** A value that may be absent: a nullable column, a lookup that found nothing. */
  datatype Option<+T> = None | Some(value: T)

  /** The outcome of an operation that either succeeds with a value or fails with an error. */
  datatype Result<+T, +E> = Ok(value: T) | Err(error: E)
}
