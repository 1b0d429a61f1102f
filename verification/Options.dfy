/** A value or its absence, as std::optional and null pointers express it. */
module Options {
  datatype Option<+T> = None | Some(value: T)
}
