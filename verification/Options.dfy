/** A value or nothing: nil pointers, missing map entries, error-free returns. */
module Options {
  datatype Option<+T> = None | Some(value: T)

  datatype Result<+T, +E> = Ok(value: T) | Err(error: E)
}
