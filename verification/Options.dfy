/** The two failure-carrying datatypes the other modules share. */
module Options {
  datatype Option<+T> = None | Some(value: T)

  /** A returned value, or the error the program raises instead. */
  datatype Result<+T, +E> = Ok(value: T) | Err(error: E)
}
