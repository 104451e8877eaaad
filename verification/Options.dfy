/** The two failure-carrying datatypes the other modules share. */
module Options {

  /** A value that may be absent, as the source's optional values are. */
  datatype Option<+T> = None | Some(value: T)

  /** A value or the reason there is none, as the source's fallible calls return. */
  datatype Result<+T, +E> = Ok(value: T) | Err(error: E)
}
