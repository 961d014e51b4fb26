/** Optional values, standing in for the source's nil pointers and nil slices/maps. */
module Wrappers {
  datatype Option<+T> = None | Some(value: T)
}
