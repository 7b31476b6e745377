/** Optional values and results with an error, used wherever the source returns
    `None`, an `undefined` field, or raises an exception. */
module Wrappers {
  datatype Option<+T> = None | Some(value: T)

  datatype Result<+T, +E> = Success(value: T) | Failure(error: E)
}
