/** Absent or present. */
module Options {
  datatype Option<T> = None | Some(value: T)
}
