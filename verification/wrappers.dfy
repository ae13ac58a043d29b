/** Optional values and results with an error, used wherever the scripts may
    find nothing or raise an exception. */
module Wrappers {

  datatype Option<+T> = None | Some(value: T)

  datatype Result<+T, +E> = Success(value: T) | Failure(error: E)
}
