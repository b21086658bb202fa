/** Option and Result, used for the nullable properties and the thrown errors of the hook. */
module Wrappers {

  datatype Option<+T> = None | Some(value: T)

  datatype Result<+R, +E> = Ok(value: R) | Err(error: E)
}
