/** Result types shared by the models of the motion-control system. */
module Wrappers {

  /** An optional value, in place of Go's nil and of its `value, ok` pairs. */
  datatype Option<+T> = None | Some(value: T)

  /** A value or an error, in place of Go's `(value, error)` pairs. */
  datatype Result<+T, +E> = Ok(value: T) | Err(error: E)
}
