/** Option and Result: the absent values and thrown errors of the modelled code. */
module Wrappers {

  /** A value that may be missing (`null`/`undefined` in JavaScript, `null` in PHP). */
  datatype Option<+T> = None | Some(value: T)

  /** The outcome of an operation that may throw. */
  datatype Result<+T, +E> = Ok(value: T) | Err(error: E)
}
