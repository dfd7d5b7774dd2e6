/** Option and Result, the failure-carrying values used throughout the model.
    `None` stands for Java's `null`, `Err` for a thrown exception. */
module Wrappers {

  datatype Option<+T> = None | Some(value: T)

  datatype Result<+T, +E> = Ok(value: T) | Err(error: E)
}
