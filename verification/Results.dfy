/** Failure and absence, as the Go sources express them with (value, error) and nil. */
module Results {
  datatype Option<+T> = None | Some(value: T)

  datatype Result<+T, +E> = Ok(value: T) | Err(error: E)
}
