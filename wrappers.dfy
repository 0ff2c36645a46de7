/** Failure-compatible wrappers shared by every module of the model. */
module Wrappers {

  /** A value that may be absent: a Go nil, a missing key, or a call that panics. */
  datatype Option<+T> = None | Some(value: T)

  /** The result of a Go function returning `(T, error)`. */
  datatype Result<+T, +E> = Ok(value: T) | Err(error: E)

  /** How a Go call fails: it returns a non-nil error, or it panics. */
  datatype Failure = Error | Panic
}
