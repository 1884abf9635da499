/** The optional value used wherever the system has a column or a read that may be absent. */
module Options {
  datatype Option<+T> = None | Some(value: T)
}
