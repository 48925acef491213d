/** Failure-compatible result types used for the request handlers' error paths. */
module Wrappers {

  datatype Option<+T> = None | Some(value: T)

  /** A handler either returns its (possibly unchanged) input or raises a validation error. */
  datatype Result<+R, +E> = Ok(value: R) | Err(error: E)
}
