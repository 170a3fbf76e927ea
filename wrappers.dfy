/** Option and Result, used for absent values, error returns and the
    verdicts of the external syntax checkers. */
module Wrappers {

  datatype Option<+T> = None | Some(value: T)

  datatype Result<+R, +E> = Ok(value: R) | Err(error: E)
}
