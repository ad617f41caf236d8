/** Option and Result, the two wrappers that the Rust code uses for optional
    group names and for fallible operations. */
module Wrappers {

  datatype Option<+T> = None | Some(value: T)

  datatype Result<+T, +E> = Ok(value: T) | Err(error: E)
}
