/** Option and Result, the failure-aware values the model uses in place of
    Java's null and checked exceptions. */
module Wrappers {

  datatype Option<+T> = None | Some(value: T)

  datatype Result<+T, +E> = Ok(value: T) | Err(error: E)

  /** A result that carries no value: success, or the error raised. */
  datatype Outcome<+E> = Pass | Fail(error: E)
}
