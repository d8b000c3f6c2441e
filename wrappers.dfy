/** Option and Result datatypes. */
module Wrappers {

  /** A value that may be absent, such as an environment variable. */
  datatype Option<+T> = None | Some(value: T)

  /** The outcome of an operation that may raise: a value, or the error it raised. */
  datatype Result<+T, +E> = Ok(value: T) | Err(error: E)
}
