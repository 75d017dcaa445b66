module Options {
  /** A value that may be missing: a key not in a dictionary, a field not set. */
  datatype Option<+T> = None | Some(value: T)
}
