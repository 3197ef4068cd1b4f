/** The outcome of an operation that can raise one of the Python exceptions
    the round engine lets escape. */
module Results {

  /** The exception classes the engine's operations can raise. */
  datatype Error = KeyError | ValueError | IndexError | ZeroDivisionError

  datatype Result<T> = Ok(value: T) | Err(error: Error)
  {
    predicate IsOk() {
      Ok?
    }
  }
}
