/** Optional values: JavaScript's `undefined` or "no such item" become None. */
module Wrappers {
  datatype Option<+T> = None | Some(value: T)
}
