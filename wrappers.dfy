/** Optional values and results with an error, used for NaN-able lookups and for the
    exceptions the modelled Python code raises. */
module Wrappers {

  datatype Option<+T> = None | Some(value: T)

  datatype Result<+T, +E> = Ok(value: T) | Err(error: E)
}
