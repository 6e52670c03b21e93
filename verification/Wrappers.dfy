/** Values that may be missing. */
module Wrappers {
  datatype Option<+T> = None | Some(value: T)

  // What an operation answers, unless it fails.
  datatype Result<+T> = Success(value: T) | Failure
}
