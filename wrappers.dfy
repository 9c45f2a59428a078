/** Failure-compatible wrappers used throughout the model. */
module Wrappers {

  /** A value that may be absent. */
  datatype Option<+T> = None | Some(value: T)

  /** The outcome of a Go call that returns `(value, error)`: either a value
      or the error's text. */
  datatype Result<+T> = Ok(value: T) | Err(error: string)
}
