/** A value that may be absent: a null column, a missing record, an error without details. */
module Optional {
  datatype Option<+T> = None | Some(value: T)
}
