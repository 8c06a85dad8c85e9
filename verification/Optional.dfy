/** A value that may be missing: JavaScript's undefined. */
module Optional {
  datatype Option<+T> = None | Some(value: T)
}
