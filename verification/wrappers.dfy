/** The Option and Result datatypes shared by the modules of this model. */
module Wrappers {

  /** An optional value: JavaScript's `null`/`undefined` versus a present one. */
  datatype Option<+T> = None | Some(value: T)

  /** A value or the error that took its place. */
  datatype Result<+T, +E> = Ok(value: T) | Err(error: E)
}
