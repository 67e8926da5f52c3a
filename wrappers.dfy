/** Failure-carrying datatypes shared by the whole model. */
module Wrappers {

  /** Python's `Optional[T]`: `None` or a present value. */
  datatype Option<+T> = None | Some(value: T)

  /** A computation that either yields a value or fails (a raised exception). */
  datatype Result<+T, +E> = Ok(value: T) | Err(error: E)

  /** The outcome of a handler that returns nothing but may reject its input. */
  datatype Outcome<+E> = Pass | Fail(error: E)
}
