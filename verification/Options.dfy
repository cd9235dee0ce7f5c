/** The optional value used wherever the program stores None. */
module Options {
  datatype Option<+T> = None | Some(value: T)
}
