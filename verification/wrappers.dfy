/** Failure-carrying datatypes shared by the rest of the model. */
module Wrappers {

  /** A value that may be absent: Java's `null` results and "threw, result unusable". */
  datatype Option<+T> = None | Some(value: T)

  /** A computation that either produced a value or raised the given error. */
  datatype Result<+T, +E> = Ok(value: T) | Err(error: E)
}
