/** What the source writes as a nullable column, a reference or a zero value. */
module Options {
  datatype Option<+T> = None | Some(value: T)
}
