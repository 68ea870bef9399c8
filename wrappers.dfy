/** Option and Result, the shapes of a nullable lookup and of a call that may throw. */
module Wrappers {

  datatype Option<+T> = None | Some(value: T)

  /** A use case either returns a value or throws one of the domain errors. */
  datatype Result<+R, +E> = Success(value: R) | Failure(error: E)
}
