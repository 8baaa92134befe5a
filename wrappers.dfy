/** Optional values and results with an error, used wherever the converter
    either has no value (Swift `nil`) or stops with an error. */
module Wrappers {

  datatype Option<+T> = None | Some(value: T)

  datatype Result<+T, +E> = Ok(value: T) | Err(error: E)
}
