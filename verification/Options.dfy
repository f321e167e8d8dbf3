/** A value that may be missing: a search that fails, a pointer that may be null. */
module Options {
  datatype Option<+T> = None | Some(value: T)
}
