/** Failure-carrying values shared by the models: a missing value and an operation that raised. */
module Wrappers {

  datatype Option<T> = None | Some(value: T)

  datatype Result<T, E> = Success(value: T) | Failure(error: E)
}
