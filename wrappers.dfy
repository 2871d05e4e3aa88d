/** Optional values and error results, standing in for JavaScript's
    `undefined`/`null` and for exceptions. */
module Wrappers {

  datatype Option<+T> = None | Some(value: T)

  datatype Result<+R, +E> = Success(value: R) | Failure(error: E)
}
