/** Optional values: the source's None, undefined and nil. */
module Wrappers {
  datatype Option<+T> = None | Some(value: T)
}
