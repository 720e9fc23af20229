/** Option and Result values used by every module of the model for the
    source's NULL returns, aborts and raised exceptions. */
module Wrappers {

  datatype Option<+T> = None | Some(value: T)

  datatype Result<+T, +E> = Success(value: T) | Failure(error: E)

}
