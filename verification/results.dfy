/** Failure-carrying values shared by every component of the model. */
module Results {

  /** A value that may be absent; the model's stand-in for Go's `(T, bool)` returns. */
  datatype Option<+T> = None | Some(value: T)

  /** Either a value or an error; the model's stand-in for Go's `(T, error)` returns. */
  datatype Result<+T, +E> = Ok(value: T) | Err(error: E)
}
