/** A value that may be missing: a NULL column or an absent row. */
module Options {
  datatype Option<T> = None | Some(value: T)
}
