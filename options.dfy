/** The optional value the source writes as `None` or an empty string. */
module Options {
  datatype Option<+T> = None | Some(value: T)
}
