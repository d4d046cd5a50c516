/** Optional values: JavaScript's `null`/`undefined` beside a present value. */
module Wrappers {

  datatype Option<+T> = None | Some(value: T)
}
