/** A value that may be absent: a pointer that may be NULL, a key a map may not have. */
module Options {
  datatype Option<+T> = None | Some(value: T)
}
