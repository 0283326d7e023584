/** Option and Result, used for SQL NULLs, Go nil pointers and Go error returns. */
module Options {
  datatype Option<+T> = None | Some(value: T)

  datatype Result<+T, +E> = Ok(value: T) | Err(error: E)
}
