/** The optional result of a partial decoder. */
module Options {

  datatype Option<+T> = None | Some(value: T)
}
