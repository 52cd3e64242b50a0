/** Optional values and results with an error, used for the Python
    exceptions that the tracker's operations can raise. */
module Wrappers {

  datatype Option<+T> = None | Some(value: T)

  datatype Result<+R, +E> = Success(value: R) | Failure(error: E)
}
