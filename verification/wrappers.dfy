/** Failure-carrying datatypes shared by the history model. */
module Wrappers {

  /** A value that may be absent (Python's `None`). */
  datatype Option<+T> = None | Some(value: T)

  /** What a call of the original code does: returns a value, or raises an
      exception that escapes to its caller (the reason names the exception). */
  datatype Result<+T> = Ok(value: T) | Raised(reason: string)
}
