/** Optional values, for the source's null pointers and "not found" answers. */
module Wrappers {
  datatype Option<+T> = None | Some(value: T)
}
