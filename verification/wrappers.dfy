/** Optional value, used for catalog lookups that fail softly. */
module Wrappers {

  datatype Option<+T> = None | Some(value: T)
}
