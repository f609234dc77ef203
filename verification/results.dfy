/** Failure-carrying values used throughout the model: the Rust program's
    `Option<T>`, `Result<T, E>` and `Result<(), E>`. */
module Results {

  datatype Option<+T> = None | Some(value: T)

  datatype Result<+T, +E> = Ok(value: T) | Err(error: E)

  /** A `Result<(), E>`: an operation run for its effect only. */
  datatype Outcome<+E> = Pass | Fail(error: E)
}
