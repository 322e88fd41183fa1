/** Option and Result values used for lookups that may fail and for the error
    outcomes of the two label pipelines. */
module Wrappers {

  datatype Option<+T> = None | Some(value: T)

  datatype Result<+R, +E> = Ok(value: R) | Err(error: E)
}
