/* An optional value: a file that could not be opened, a text that does not parse. */
module Options {

  datatype Option<+T> = None | Some(value: T)
}
