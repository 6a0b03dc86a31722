/** Failure-compatible wrappers shared by every module of the model. */
module Wrappers {

  /** A possibly missing value; `None` also stands for JavaScript's `undefined`. */
  datatype Option<+T> = None | Some(value: T)

  /** The outcome of an operation that may throw: `Err` carries the thrown error's text. */
  datatype Result<+T, +E> = Ok(value: T) | Err(error: E)
}
