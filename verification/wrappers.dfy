/** Optional values, for parent links, the current node and the path, and
    results, for operations of the source that can fault. */
module Wrappers {

  datatype Option<+T> = None | Some(value: T)

  datatype Result<+R, +E> = Success(value: R) | Failure(error: E)
}
