/** Failure-carrying values used where the Python code raises and catches exceptions. */
module Results {

  /** A value that may be absent: a caught per-row failure or a pandas null cell. */
  datatype Option<+T> = None | Some(value: T)

  /** A value or the reason it could not be computed. */
  datatype Result<+T, +E> = Success(value: T) | Failure(error: E)
}
