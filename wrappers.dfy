/** Option and result wrappers used for the error paths of the configuration. */
module Wrappers {

  /** An optional value: the Go `(value, err)` pair where only success or failure matters. */
  datatype Option<+T> = None | Some(value: T)

  /** A value or the error that prevented computing it. */
  datatype Result<+T, +E> = Success(value: T) | Failure(error: E)
}
