/** Option and Result values used for the source's missing fields and error paths. */
module Wrappers {

  datatype Option<+T> = None | Some(value: T)

  /** An operation that either produces a value or fails with an error (an HTTP error
      response, a thrown exception or a rejected form in the source). */
  datatype Result<+T, +E> = Ok(value: T) | Err(error: E)
}
