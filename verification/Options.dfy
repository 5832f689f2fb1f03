/** The usual optional value, used wherever the source returns a null pointer or an invalid address. */
module Options {
  datatype Option<+T> = None | Some(value: T)
}
