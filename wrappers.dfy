/** Optional values: an absent request field, a NaN path id, a response without data. */
module Wrappers {

  datatype Option<+T> = None | Some(value: T)
}
