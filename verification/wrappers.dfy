/** The optional and fallible results shared by every module. */
module Wrappers {
  /** A value that may be absent: a Go nil pointer, or a missing entry. */
  datatype Option<+T> = None | Some(value: T)

  /** A Go `(value, error)` pair where the error decides whether the value is meaningful. */
  datatype Result<+T, +E> = Success(value: T) | Failure(error: E)
}
