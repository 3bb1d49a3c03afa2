/** Option and Result values: the absent aggregate and the validation error of the backend. */
module Results {

  datatype Option<T> = None | Some(value: T)

  datatype Result<T, E> = Success(value: T) | Failure(error: E)
}
