/** Failure-carrying datatypes shared by the pipeline modules. */
module Wrappers {

  /** A value that may be absent: an image decoder that returns nothing on an unreadable file. */
  datatype Option<+T> = None | Some(value: T)

  /** A computation that either produces a value or fails with an error. */
  datatype Result<+R, +E> = Success(value: R) | Failure(error: E)
}
