/** Optional values, used where the source produces "a candidate or nothing". */
module Wrappers {

  datatype Option<+T> = None | Some(value: T)
}
