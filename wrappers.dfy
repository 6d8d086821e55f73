/** Optional values and handler outcomes shared by the other modules. */
module Wrappers {

  /** A value that may be absent: a JSON key that is missing or null. */
  datatype Option<+T> = None | Some(value: T)

  /** The outcome of a handler: its reply, or the error it answers with. */
  datatype Result<+T, +E> = Ok(value: T) | Err(error: E)
}
