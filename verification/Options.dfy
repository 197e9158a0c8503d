module Options {
  /** A pointer that may be NULL, or a result that may be missing. */
  datatype Option<T> = None | Some(value: T)
}
