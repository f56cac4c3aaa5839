/** Optional values: stands for a JavaScript property that may be absent or falsy. */
module Wrappers {

  datatype Option<+T> = None | Some(value: T)
}
