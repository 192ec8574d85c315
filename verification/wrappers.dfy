/** Optional values and results with an error, used for Python's `None` and for
    handlers that raise before changing any state. */
module Wrappers {

  datatype Option<+T> = None | Some(value: T)

  datatype Result<+T, +E> = Success(value: T) | Failure(error: E)
}
