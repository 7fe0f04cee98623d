/** Result types shared by the models: what the program returns through
    `std::optional` and through its own `Result` class. */
module Common {

  datatype Option<+T> = None | Some(value: T)

  /** The program's error value: a code and a message. */
  datatype Error = Error(code: int, what: string)

  datatype Result<+T> = Ok(value: T) | Err(error: Error)
}
