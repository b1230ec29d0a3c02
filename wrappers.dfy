/** Failure-compatible wrappers shared by the model. */
module Wrappers {

  /** A value that may be absent: a JavaScript `undefined`, a falsy option, a git command that threw. */
  datatype Option<+T> = None | Some(value: T)

  /** The outcome of an operation that may raise an error. */
  datatype Result<+T, +E> = Ok(value: T) | Err(error: E)
}
