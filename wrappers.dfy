/** Option and Result: Go's `(value, ok)` and `(value, error)` return pairs. */
module Wrappers {

  datatype Option<+T> = None | Some(value: T)

  /** A value or the text of the error the Go code returns. */
  datatype Result<+T> = Ok(value: T) | Err(error: string)
}
