/** Failure-carrying values shared by the modules of this model. */
module Results {

  /** A value that may be missing (Python's `None`, a failed lookup, a failed decode). */
  datatype Option<T> = None | Some(value: T)

  /** The outcome of an operation that either returns a value or raises an error. */
  datatype Result<T, E> = Ok(value: T) | Err(error: E)
}
