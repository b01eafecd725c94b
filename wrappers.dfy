/** Failure-compatible wrappers shared by the modules of this model. */
module Wrappers {

  /** An optional value: `None` plays the part of JavaScript's `null`/`undefined` result. */
  datatype Option<+T> = None | Some(value: T)

  /** A computation that either succeeds with a value or fails with an error. */
  datatype Result<+T, +E> = Success(value: T) | Failure(error: E)
}
