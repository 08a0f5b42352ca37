/** The optional value and the success-or-error result used by both tools. */
module Wrappers {

  datatype Option<+T> = None | Some(value: T)

  /** Either a value or the error that aborted the run. */
  datatype Result<+R, +E> = Ok(value: R) | Err(error: E)
}
