/** A value that a reply or a lookup may or may not carry. */
module Options {
  datatype Option<+T> = None | Some(value: T)
}
