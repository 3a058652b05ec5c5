/** A value or nothing: a failed assertion, an aborted call, a refused message. */
module Options {
  datatype Option<+T> = None | Some(value: T)
}
