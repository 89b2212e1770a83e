/** The result shapes the other modules share. */
module Wrappers {

  datatype Option<+T> = None | Some(value: T)

  /** A value, or why there is none. */
  datatype Result<+T, +E> = Ok(value: T) | Err(error: E)
}
