/** Failure-carrying results shared by the modules of this project. */
module Wrappers {

  /** A value that may be absent: Java's `null`, JavaScript's `undefined`. */
  datatype Option<+T> = None | Some(value: T)

  /** The outcome of an operation that may throw: `Err` stands for the exception. */
  datatype Result<+T, +E> = Ok(value: T) | Err(error: E)
}
