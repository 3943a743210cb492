/** A value that may be absent: a nullable column or an optional argument. */
module Options {
  datatype Option<+T> = None | Some(value: T)
}
