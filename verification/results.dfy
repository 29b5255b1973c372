/** Optional values and error-carrying results used across the model. */
module Results {

  /** A value that may be missing, as a dictionary lookup may miss. */
  datatype Option<+T> = None | Some(value: T)

  /** The outcome of an operation that may raise instead of returning. */
  datatype Result<+T, +E> = Ok(value: T) | Err(error: E)
}
