/** Option and Result, the two failure-carrying types the model uses. */
module Wrappers {

  /** A value that may be absent: a missing table cell, a dict lookup that finds nothing. */
  datatype Option<+T> = None | Some(value: T)

  /** The outcome of an operation that can fail with an error instead of a value. */
  datatype Result<+R, +E> = Ok(value: R) | Err(error: E)
}
