/** Optional values, used where the mail system reports "not found" as an absent result. */
module Wrappers {
  datatype Option<+T> = None | Some(value: T)
}
