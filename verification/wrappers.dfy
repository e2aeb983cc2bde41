/** Optional values: a JavaScript `null`/`undefined` or an absent search result. */
module Wrappers {

  datatype Option<+T> = None | Some(value: T)

}
