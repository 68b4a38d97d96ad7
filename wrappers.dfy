/** Optional values: stands for the source's `T | null` state slots. */
module Wrappers {

  datatype Option<+T> = None | Some(value: T)
}
