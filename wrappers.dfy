/** Option and Result, the two failure-carrying types the solvers use in place of
    Rust's `Option` and of a panic or an early `exit`. */
module Wrappers {

  datatype Option<+T> = None | Some(value: T)

  datatype Result<+T, +E> = Ok(value: T) | Err(error: E)
}
