/** Option and Result, the failure-carrying values used throughout the model. */
module Wrappers {

  /** `None` stands for JavaScript's `null` / `undefined`. */
  datatype Option<+T> = None | Some(value: T)

  /** `Err` stands for a thrown exception. */
  datatype Result<+T, +E> = Ok(value: T) | Err(error: E)
}
