/** Optional values and results with an error, as the source's `undefined`/`null`
    and its thrown errors are modelled throughout. */
module Wrappers {

  datatype Option<+T> = None | Some(value: T)

  datatype Result<+R, +E> = Success(value: R) | Failure(error: E)
}
