/** Failure-carrying datatypes shared by the model's modules. */
module Base {

  datatype Option<T> = None | Some(value: T)

  /** The outcome of an operation that raises in the source: a value, or the exception it raises. */
  datatype Result<T, E> = Success(value: T) | Failure(error: E)
}
