/** Option and Result: Go's nil pointers and (value, error) returns. */
module Wrappers {

  /** A pointer or optional message field: `None` stands for Go's nil. */
  datatype Option<+T> = None | Some(value: T)

  /** A Go `(value, error)` return: either the value or a non-nil error. */
  datatype Result<+T> = Ok(value: T) | Err(error: string)
}
