/** The optional value that the modelled code writes as None. */
module Options {
  datatype Option<+T> = None | Some(value: T)
}
