/** Optional values, used where the Python code raises (IndexError, ValueError). */
module Wrappers {
  datatype Option<+T> = None | Some(value: T)
}
