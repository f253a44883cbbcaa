/** Option and Result: the model's stand-ins for `null` returns and thrown errors. */
module Base {

  datatype Option<+T> = None | Some(value: T)

  /** A service call either returns a value or throws an `Error` whose message is `error`. */
  datatype Result<+T, +E> = Ok(value: T) | Err(error: E)
}
