/** Optional values: a JavaScript `undefined`/`null`, a missing stored item or a missing field. */
module Wrappers {
  datatype Option<+T> = None | Some(value: T)
}
