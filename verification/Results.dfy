/** Success/failure and presence/absence of a value, used in place of Go's (value, error) and (value, ok) pairs. */
module Results {

  datatype Option<+T> = None | Some(value: T)

  datatype Result<+T, +E> = Ok(value: T) | Err(error: E)
}
