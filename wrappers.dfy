/** Optional values, as the source's `Option` and the "nothing to reply" case use them. */
module Wrappers {

  datatype Option<+T> = None | Some(value: T)
}
