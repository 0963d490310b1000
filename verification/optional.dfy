/** Python's `None`-or-value fields. */
module Optional {

  datatype Option<T> = None | Some(value: T)
}
