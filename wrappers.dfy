/** Option and Result: a missing value and an operation that may fail. */
module Wrappers {

  /** A value that may be absent (Java's null, or a NaN read from JSON). */
  datatype Option<+T> = None | Some(value: T)

  /** The outcome of an operation that either succeeds with a value or fails with an error. */
  datatype Result<+R, +E> = Ok(value: R) | Err(error: E)
}
