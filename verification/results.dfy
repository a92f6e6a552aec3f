/** The two wrappers the model uses in place of Java's `null` and exceptions. */
module Results {

  /** A possibly absent value: `None` stands for a Java `null`. */
  datatype Option<+T> = None | Some(value: T)

  /** The outcome of a call that either returns a value or throws an error. */
  datatype Result<+T, +E> = Ok(value: T) | Err(error: E)
}
