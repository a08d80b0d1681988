/** Optional values and results with an error, used for lookups that can miss
    and for the early `return`/`abort` paths of the request handlers. */
module Wrappers {

  datatype Option<+T> = None | Some(value: T)

  datatype Result<+R, +E> = Success(value: R) | Failure(error: E)
}
