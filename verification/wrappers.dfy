/** Optional values, used where the interpreter has a nullable value. */
module Wrappers {

  datatype Option<+T> = None | Some(value: T)
}
