/** Optional values, used wherever the source has `None` or a failed regex search. */
module Wrappers {

  datatype Option<+T> = None | Some(value: T)
}
