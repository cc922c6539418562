/** Value types shared by every module: bytes, and the Option, Result and
    Outcome shapes that stand for Go's `(value, error)` and `error` returns. */
module Wrappers {

  /** A Go `byte`. */
  type Byte = x: int | 0 <= x < 256

  datatype Option<+T> = None | Some(value: T)

  /** A Go `(T, error)` return: either the value or the error. */
  datatype Result<+T, +E> = Ok(value: T) | Err(error: E)

  /** A Go `error` return: nil or the error. */
  datatype Outcome<+E> = Pass | Fail(error: E)
}
