/** Optional values and results with an error message, as used across the model. */
module Wrappers {

  /** Python's `Optional[T]`: `None` or a present value. */
  datatype Option<+T> = None | Some(value: T)

  /** A computation that either yields a value or raises an error with a message. */
  datatype Result<+T> = Ok(value: T) | Err(message: string)
}
