/** Option and Result values used for Go's nil pointers and `(value, error)` returns. */
module Results {
  datatype Option<T> = None | Some(value: T)

  datatype Result<T, E> = Ok(value: T) | Err(error: E)
}
