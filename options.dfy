/** The optional value used for Python's `None`-or-object results. */
module Options {
  datatype Option<+T> = None | Some(value: T)
}
