/** Optional values: the `null` a lookup or a service call returns when nothing is found. */
module Wrappers {
  datatype Option<+T> = None | Some(value: T)
}
