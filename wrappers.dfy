/** Optional values, used where the source signals absence or a thrown exception. */
module Wrappers {

  datatype Option<+T> = None | Some(value: T)
}
