/** Optional values: a missing DOM element, an absent attribute, a failed call. */
module Wrappers {
  datatype Option<+T> = None | Some(value: T)
}
