/** Optional values and results with an error payload, used for the
    fallible operations of the model (a failed Go type assertion, a parse
    that does not match). */
module Wrappers {

  datatype Option<+T> = None | Some(value: T)

  datatype Result<+R, +E> = Success(value: R) | Failure(error: E)
}
