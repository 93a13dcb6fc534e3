/** Optional values: the Go `(value, ok)` and `nil`-able returns of the proxy. */
module Maybe {
  datatype Option<+T> = None | Some(value: T)
}
