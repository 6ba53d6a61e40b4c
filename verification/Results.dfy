/** A value that may be absent, and a value or the message of the exception raised. */
module Results {
  datatype Option<+T> = None | Some(value: T)
  datatype Result<+T> = Ok(value: T) | Err(message: string)
}
