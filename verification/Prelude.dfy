/** Result types shared by the modules of the model. */
module Prelude {

  /** A value or its absence: Go's `value, ok` pairs and nil pointers. */
  datatype Option<+T> = None | Some(value: T)

  /** A value or an error: Go's `value, err` pairs. */
  datatype Result<+T, +E> = Ok(value: T) | Err(error: E)
}
