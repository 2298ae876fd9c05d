/** Failure-carrying return types shared by the modules of this model. */
module Wrappers {

  datatype Option<+T> = None | Some(value: T)

  datatype Result<+R, +E> = Ok(value: R) | Err(error: E)

  datatype Outcome<+E> = Pass | Fail(error: E)
}
