/** The two result shapes the sources use throughout: an optional value and a value-or-error. */
module Options {
  datatype Option<+T> = None | Some(value: T)

  datatype Result<+T, +E> = Ok(value: T) | Err(error: E)
}
