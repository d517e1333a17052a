/** Optional values and results with an error, standing for Swift optionals
    and for functions that `throw`. */
module Wrappers {

  datatype Option<+T> = None | Some(value: T)

  datatype Result<+T, +E> = Ok(value: T) | Err(error: E)
}
