/** Optional values: the model's stand-in for a Python call that either
    returns a value or raises an exception that the caller catches. */
module Wrappers {
  datatype Option<+T> = None | Some(value: T)
}
