/** Failure-carrying datatypes shared by the model: `Option` for a value that
    may be absent, `Result` for an operation that may raise an error. */
module Wrappers {

  datatype Option<+T> = None | Some(value: T)

  datatype Result<+R, +E> = Ok(value: R) | Err(error: E)
}
