/** The optional value returned by the parsers. */
module Options {

  datatype Option<+T> = None | Some(value: T)
}
