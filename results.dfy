/** Small failure-carrying wrappers used throughout the model. */
module Results {

  /** A value that may be absent (the store's `null`). */
  datatype Option<T> = None | Some(value: T)

  /** A computed value, or the error that stopped the computation. */
  datatype Result<T, E> = Ok(value: T) | Err(error: E)

  /** The outcome of an operation that returns nothing when it succeeds. */
  datatype Outcome<E> = Pass | Fail(error: E)
}
