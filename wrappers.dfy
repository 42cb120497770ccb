/** Option and Result values used for the nullable columns and the thrown errors of the engine. */
module Wrappers {

  datatype Option<+T> = None | Some(value: T)

  datatype Result<+R, +E> = Success(value: R) | Failure(error: E)
}
