/** Optional values, for request callbacks and confirmation payloads. */
module Wrappers {
  datatype Option<+T> = None | Some(value: T)
}
