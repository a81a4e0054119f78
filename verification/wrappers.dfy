/** Optional values and success/failure results, used wherever the source has
    `undefined`/`null` or throws an `Error`. */
module Wrappers {

  datatype Option<+T> = None | Some(value: T)

  datatype Result<+R, +E> = Success(value: R) | Failure(error: E)
}
