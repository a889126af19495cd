/** Option and Result, used for the nullable `query` and for the exceptions
    the adapter can throw. */
module Wrappers {

  datatype Option<+T> = None | Some(value: T)

  datatype Result<+R, +E> = Success(value: R) | Failure(error: E)
}
