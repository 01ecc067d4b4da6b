/** The result of an operation that can fail with an error of type `E`,
    and a value that may be absent. */
module Results {
  datatype Result<+T, +E> = Success(value: T) | Failure(error: E)

  datatype Option<+T> = None | Some(value: T)
}
