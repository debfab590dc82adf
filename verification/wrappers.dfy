/** Optional values: the engine's lookups that may find nothing. */
module Wrappers {

  datatype Option<+T> = None | Some(value: T)
}
