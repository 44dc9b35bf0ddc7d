/** Optional values: a NULL pointer or a failed table lookup is `None`. */
module Wrappers {

  datatype Option<+T> = None | Some(value: T)
}
