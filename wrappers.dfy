/** Option and Result, used for the "no row" answers and the raised errors of auth.py. */
module Wrappers {

  datatype Option<+T> = None | Some(value: T)

  datatype Result<+T, +E> = Ok(value: T) | Err(error: E)
}
