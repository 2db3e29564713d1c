/** The failure-carrying shapes used across the model. */
module Wrappers {
  /** A value that may be missing: an opaque routine that can fail yields `None`. */
  datatype Option<+T> = None | Some(value: T)

  /** A computation that either produced a value or raised an error. */
  datatype Result<+T, +E> = Success(value: T) | Failure(error: E)
}
