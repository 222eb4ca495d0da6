/** The optional values shared by every module: a nullable pointer, an iterator that may be at its end. */
module Options {
  datatype Option<+T> = None | Some(value: T)
}
