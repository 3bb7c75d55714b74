/** Failure-carrying wrappers shared by the model. */
module Wrappers {

  /** A value that may be absent. */
  datatype Option<T> = None | Some(value: T)

  /** A value, or the text of the error that took its place (Go's `(T, error)` pair). */
  datatype Result<T> = Ok(value: T) | Err(msg: string)
}
