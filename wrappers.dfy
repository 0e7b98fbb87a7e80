/** Optional values, used for the node classification that starts out unset. */
module Wrappers {

  datatype Option<+T> = None | Some(value: T)

}
