/** Types shared by the model. */
module Wrappers {

  /** The identity of a row; the source's are UUIDs. */
  type Id = nat

  datatype Option<+T> = None | Some(value: T)

  /** The outcome of a source function that returns `(value, error)`. */
  datatype Result<+T, +E> = Ok(value: T) | Err(error: E)
}
