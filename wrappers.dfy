/** Optional values: a field of a JSON request body that is absent or present. */
module Wrappers {

  datatype Option<+T> = None | Some(value: T)
}
