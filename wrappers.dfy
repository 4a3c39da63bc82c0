/** Optional values: a sensor callback may deliver a null event. */
module Wrappers {

  datatype Option<+T> = None | Some(value: T)
}
