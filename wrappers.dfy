/** Option and Result: the two ways Go code in this model reports "nothing" and "failed". */
module Wrappers {

  /** A value that may be absent: Go's nil interface or nil error. */
  datatype Option<+T> = None | Some(value: T)

  /** The outcome of a call that either yields a value or fails with an error. */
  datatype Result<+R, +E> = Success(value: R) | Failure(error: E)
}
