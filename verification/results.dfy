/** Wrappers shared by the model: `Option` for a C# reference that may be
    null, `Result` for a call that may throw, and `Outcome` for a void call
    that may throw. */
module Results {

  /** A value that may be absent (a null reference in the source). */
  datatype Option<+T> = None | Some(value: T)

  /** A call that either returns a value or raises an error. */
  datatype Result<+R, +E> = Success(value: R) | Failure(error: E)

  /** A void call that either completes or raises an error. */
  datatype Outcome<+E> = Pass | Fail(error: E)
}
