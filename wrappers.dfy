/** Option and Result, the two wrappers the model uses for lookups that may
    fail and for the service's error return. */
module Wrappers {

  datatype Option<+T> = None | Some(value: T)

  datatype Result<+R, +E> = Success(value: R) | Failure(error: E)
}
