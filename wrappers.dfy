/** Rust's Option and Result, as the values the battery code passes around. */
module Wrappers {

  /** `Option<T>`: a value that may be absent. */
  datatype Option<T> = None | Some(value: T)

  /** `Result<T, E>`: either the value of a successful step or the error that stopped it. */
  datatype Result<T, E> = Ok(value: T) | Err(error: E)
}
