/** Failure values shared by every module. */
module Prelude {

  datatype Option<+T> = None | Some(value: T)

  /** A Go `(T, error)` pair: exactly one side is meaningful. */
  datatype Result<+T, +E> = Ok(value: T) | Err(error: E)
}
