/** Plain datatypes for the Go `(value, error)` and `error` returns. */
module Wrappers {

  /** A Go `error` return: `None` is `nil`, `Some(e)` is a non-nil error. */
  datatype Option<+T> = None | Some(value: T)

  /** A Go `(value, error)` return pair in which exactly one side is meaningful. */
  datatype Result<+R, +E> = Success(value: R) | Failure(error: E)
}
