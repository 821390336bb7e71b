/** A value that may be absent: a nil slice or pointer, a zero time, or an error. */
module Options {
  datatype Option<+T> = None | Some(value: T)
}
