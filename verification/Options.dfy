/** The optional value that stands for the nullable columns, fields and lookups of the source. */
module Options {
  datatype Option<+T> = None | Some(value: T)
}
