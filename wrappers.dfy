/** Optional values: `Some(v)`, or `None` where JavaScript has `null` or `undefined`. */
module Wrappers {
  datatype Option<+T> = None | Some(value: T)
}
