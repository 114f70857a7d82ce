/** Optional values and results that carry an error, standing in for
    Python's `None` and for exceptions raised by the parser. */
module Wrappers {

  datatype Option<+T> = None | Some(value: T)

  datatype Result<+T, +E> = Ok(value: T) | Err(error: E)
}
