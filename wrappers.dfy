/** Optional values: SQL NULL, "no row", Python's None. */
module Wrappers {

  datatype Option<+T> = None | Some(value: T)
}
