/** Option and Result values for absent request fields and for
    handler outcomes that are either a value or an error. */
module Outcomes {

  /** A value that may be missing, as a field of a JSON request body may be. */
  datatype Option<+T> = None | Some(value: T)

  /** Either the value a handler answers with or the error it rejects with. */
  datatype Result<+T, +E> = Ok(value: T) | Err(error: E)
}
