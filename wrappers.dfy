/** Optional values: the Java `null` reference made explicit. */
module Wrappers {

  datatype Option<+T> = None | Some(value: T)
}
