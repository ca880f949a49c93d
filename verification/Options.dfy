/** Optional values, where the source has a null pointer or an errno. */
module Options {
  datatype Option<+T> = None | Some(value: T)
}
