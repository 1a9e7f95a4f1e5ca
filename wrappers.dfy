/** Optional values, standing in for the Java `null` the vault uses for "absent". */
module Wrappers {

  datatype Option<+T> = None | Some(value: T)
}
