/** Optional values, standing in for Go's nil pointers. */
module Options {
  datatype Option<+T> = None | Some(value: T)
}
