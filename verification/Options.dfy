/** A value or none: nil pointers, NULL columns, absent errors. */
module Options {
  datatype Option<+T> = None | Some(value: T)
}
