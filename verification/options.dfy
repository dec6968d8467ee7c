module Options {
  /** A value that may be missing: Go's nil pointers. */
  datatype Option<+T> = None | Some(value: T)
}
