/** Optional values, shared by the modules of the model (Go's nil results). */
module Wrappers {
  datatype Option<+T> = None | Some(value: T)
}
