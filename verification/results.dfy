/** Result and option wrappers shared by the other modules. */
module Results {

  /** The value a promise settles to: fulfilled with a value, or rejected with an error. */
  datatype Result<+T, +E> = Success(value: T) | Failure(error: E)

  /** A value that may be missing. */
  datatype Option<+T> = None | Some(value: T)
}
