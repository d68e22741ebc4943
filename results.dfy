/** Outcomes of operations that the C code reports by a return value or by exiting. */
module Results {

  datatype Option<T> = None | Some(value: T)

  /** A value, or the reason it could not be produced. */
  datatype Result<T, E> = Ok(value: T) | Err(error: E)
}
