/** Optional values: a JSON body field that may be absent, or a step of a
    property chain that may throw. */
module Wrappers {

  datatype Option<+T> = None | Some(value: T)
}
