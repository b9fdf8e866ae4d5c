/** Option and Result, the two wrapper types the Rust code uses for absent values and recoverable errors. */
module Wrappers {

  datatype Option<+T> = None | Some(value: T)

  datatype Result<+T, +E> = Ok(value: T) | Err(error: E)
}
