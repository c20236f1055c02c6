/** The optional value used wherever the source returns `None` or may have nothing. */
module Options {

  datatype Option<+T> = None | Some(value: T)
}
