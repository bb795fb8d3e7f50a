/** Failure-carrying values shared by the other modules. */
module Wrappers {

  /** Python's `None` or a present value. */
  datatype Option<+T> = None | Some(value: T)

  /** A value, or the exception the source would raise instead. */
  datatype Result<+T, +E> = Ok(value: T) | Err(error: E)
}
