/** Optional values and results that carry an error message, used for every
    step of the system that may fail (the language-model call, JSON parsing,
    UTF-8 decoding, CSV parsing, chart rendering). */
module Wrappers {

  datatype Option<+T> = None | Some(value: T)

  datatype Result<+R, +E> = Success(value: R) | Failure(error: E)
}
