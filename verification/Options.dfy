/** The usual optional value, for the source's null pointers and "not found" results. */
module Options {
  datatype Option<+T> = None | Some(value: T)
}
