/**
 * The optional value and the outcome-or-error shared by every module: a Java
 * or JavaScript value that may be null, and a call that may throw.
 */
module Wrappers {

  datatype Option<T> = None | Some(value: T)

  /** A value, or the error that takes its place (an exception or a refusal) */
  datatype Result<T, E> = Ok(value: T) | Err(error: E)
}
