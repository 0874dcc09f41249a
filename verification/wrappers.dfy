/** Optional values, used for Go's `error` results (None is a nil error) and for
    conversions that may fail. */
module Wrappers {

  datatype Option<+T> = None | Some(value: T)
}
