/** Optional values: JavaScript's `null`/`undefined` results and absent DOM nodes. */
module Wrappers {
  datatype Option<+T> = None | Some(value: T)
}
