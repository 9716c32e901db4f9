/** Optional values and failures. */
module Options {
  datatype Option<+T> = None | Some(value: T)
}
