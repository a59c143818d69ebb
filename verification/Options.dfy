/** A value that may be absent: an empty handle, a null pointer, a lookup without result. */
module Options {
  datatype Option<+T> = None | Some(value: T)
}
