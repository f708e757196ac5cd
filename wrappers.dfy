/** Optional values and results with an error payload, used across the model. */
module Wrappers {

  datatype Option<T> = None | Some(value: T)

  datatype Result<T, E> = Success(value: T) | Failure(error: E)
}
