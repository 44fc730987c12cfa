/** A value there may be. */
module Options {
  datatype Option<+T> = None | Some(value: T)
}
