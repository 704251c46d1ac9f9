/** Optional values: a JavaScript `undefined`/`null` result, a failed promise or an absent field. */
module Wrappers {

  datatype Option<+T> = None | Some(value: T)
}
