/** The conventional optional value and success-or-error value, used wherever the source returns an `Option` or a `Result`. */
module Wrappers {

  datatype Option<+T> = None | Some(value: T)

  datatype Result<+T, +E> = Ok(value: T) | Err(error: E)
}
