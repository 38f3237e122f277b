/** Failure-carrying values used throughout the model: `Option` for Rust's
    `Option`, `Result` for `Result<_, anyhow::Error>` and for the panics a
    caller can observe. */
module Wrappers {

  datatype Option<+T> = None | Some(value: T)

  datatype Result<+T, +E> = Ok(value: T) | Err(error: E)
}
