/** Option and Result, used for lookups that may find nothing and for
    operations that either produce a value or raise an error. */
module Wrappers {

  datatype Option<+T> = None | Some(value: T)

  datatype Result<+T, +E> = Ok(value: T) | Err(error: E)
}
