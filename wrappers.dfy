/** Failure-carrying values used across the model in place of Go's `(value, error)` returns. */
module Wrappers {

  /** An optional value; `None` also stands for Go's nil error. */
  datatype Option<+T> = None | Some(value: T)

  /** A value or an error, for Go functions that return `(T, error)`. */
  datatype Result<+T, +E> = Ok(value: T) | Err(error: E)
}
