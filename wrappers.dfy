/** Optional values: a hardware read or a parse that may have nothing to give. */
module Wrappers {

  datatype Option<+T> = None | Some(value: T)
}
