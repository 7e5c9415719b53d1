/** Optional values: JavaScript's `null` for a field that may be unset. */
module Wrappers {

  datatype Option<+T> = None | Some(value: T)
}
