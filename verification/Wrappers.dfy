/** The two result types the model uses for Go's `(value, error)` pairs and absent map entries. */
module Wrappers {
  datatype Option<+T> = None | Some(value: T)

  datatype Result<+T, +E> = Ok(value: T) | Err(error: E)
}
