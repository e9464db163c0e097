/** Option and Result values shared by the forum model. */
module Wrappers {

  /** A value that may be absent: JavaScript's `undefined` result of `find`. */
  datatype Option<+T> = None | Some(value: T)

  /** The outcome of a validation chain: a value, or the message shown to the user. */
  datatype Result<+T, +E> = Ok(value: T) | Err(error: E)
}
