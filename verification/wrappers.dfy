/** Option and Result, used for Java's nullable returns and for exceptions. */
module Wrappers {

  /** A value that may be absent: Java's `null` reference. */
  datatype Option<+T> = None | Some(value: T)

  /** A call that either returns a value or raises a failure. */
  datatype Result<+R, +E> = Success(value: R) | Failure(error: E)
}
