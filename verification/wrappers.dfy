/** Optional values, as returned by a selector's `.get()` or a dictionary's `.get()`. */
module Wrappers {

  datatype Option<+T> = None | Some(value: T)
}
