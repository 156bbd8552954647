/** Optional values: a Go `error` that may be nil, a pulse timestamp that may be absent. */
module Wrappers {

  datatype Option<+T> = None | Some(value: T)
}
