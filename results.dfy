/** Success-or-error values standing in for the Python code's exceptions. */
module Results {

  datatype Option<+T> = None | Some(value: T)

  /** A factory call either builds a value or fails with an error describing why. */
  datatype Result<+T, +E> = Success(value: T) | Failure(error: E)
}
