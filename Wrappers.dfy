/** Optional values, for the parts of a rendered row that may be absent. */
module Wrappers {

  datatype Option<+T> = None | Some(value: T)

}
