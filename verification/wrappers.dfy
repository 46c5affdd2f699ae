/** Optional values: the model's stand-in for JavaScript's `null`. */
module Wrappers {

  /** `None` plays the part of `null`; `Some(v)` carries a present value. */
  datatype Option<+T> = None | Some(value: T)
}
