/** The conventional Some/None datatype, used for Python's `None` and for lookups that may miss. */
module Options {
  datatype Option<+T> = None | Some(value: T)
}
