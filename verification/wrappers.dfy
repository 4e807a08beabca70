/** Optional values: an absent key of a cycle record is None. */
module Wrappers {
  datatype Option<+T> = None | Some(value: T)
}
