/** Results shared by the other modules. */
module Wrappers {

  datatype Option<+T> = None | Some(value: T)

  /** A call that returns a value, or raises `WorldlineError(code)` or an `OSError`. */
  datatype Result<+T> = Ok(value: T) | Refused(code: string)
}
