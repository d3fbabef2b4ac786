/** Small failure-carrying wrappers shared by every module of the model. */
module Common {

  /** A value that may be absent (a `null` reply, an undefined property). */
  datatype Option<T> = None | Some(value: T)

  /** The outcome of a store call that can fail with an error of type `E`. */
  datatype Result<T, E> = Ok(value: T) | Err(error: E)
}
