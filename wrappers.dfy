/** Failure-carrying results used where the source raises an exception. */
module Wrappers {
  datatype Option<T> = None | Some(value: T)

  datatype Result<T, E> = Ok(value: T) | Err(error: E)
}
