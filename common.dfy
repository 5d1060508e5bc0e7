/** Result and error values shared by every layer of the service. */
module Common {

  datatype Option<T> = None | Some(value: T)

  /** An error. `AppError` carries a message the application builds itself;
      `DbError` stands for an error reported by the database or its driver. */
  datatype Error = AppError(message: string) | DbError(message: string)

  /** A value together with a non-nil error, as the Go functions return `(T, error)`. */
  datatype Result<T> = Ok(value: T) | Err(error: Error)

  /** The outcome of a call that returns only an `error`: `Pass` is nil. */
  datatype Outcome = Pass | Fail(error: Error)
}
