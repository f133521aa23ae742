/** Failure-carrying values used in place of Go's `(value, error)` pairs and nil pointers. */
module Results {

  /** A value that may be absent; `None` stands for a Go nil pointer. */
  datatype Option<+T> = None | Some(value: T)

  /** A value or the error that prevented computing it. */
  datatype Result<+T, +E> = Success(value: T) | Failure(error: E)

  /** The outcome of a check that yields no value: a nil `error` or a non-nil one. */
  datatype Outcome<+E> = Pass | Fail(error: E)
}
