/** Optional values, used for parse results and for the error half of Go's
    `(value, error)` return pairs (`None` stands for a nil error). */
module Wrappers {

  datatype Option<+T> = None | Some(value: T)
}
