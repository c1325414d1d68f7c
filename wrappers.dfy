/** Optional values, for the partial parser of formatted times. */
module Wrappers {
  datatype Option<+T> = None | Some(value: T)
}
