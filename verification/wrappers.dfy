/** Optional values, standing in for a nullable handle or a lookup that can
    miss. */
module Wrappers {

  datatype Option<+T> = None | Some(value: T)
}
