/** Optional values: a JavaScript value that may be `undefined`, a lookup that may find nothing. */
module Wrappers {

  datatype Option<+T> = None | Some(value: T)
}
