/** Option and Result, for the source's `undefined`/`null` values and its error returns. */
module Wrappers {

  datatype Option<+T> = None | Some(value: T)

  /** A validated value, or the message the form shows instead. */
  datatype Result<+T> = Ok(value: T) | Err(message: string)
}
