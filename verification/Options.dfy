/** A value that may be absent, as a null or an empty `Optional` in the source. */
module Options {
  datatype Option<+T> = None | Some(value: T)
}
