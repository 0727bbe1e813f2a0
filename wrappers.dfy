/** Optional values, the model of Java's Optional, OptionalLong and nullable references. */
module Wrappers {
  datatype Option<+T> = None | Some(value: T)
}
