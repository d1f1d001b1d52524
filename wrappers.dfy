/** Optional values and success-or-error results, standing for the source's
    `undefined`/`null` returns and thrown `Error`s. */
module Wrappers {

  datatype Option<+T> = None | Some(value: T)

  datatype Result<+T, +E> = Success(value: T) | Failure(error: E)
}
