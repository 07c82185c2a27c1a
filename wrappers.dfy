/** Optional values: a TypeScript `T | undefined` or a `ref` that may hold `null`. */
module Wrappers {
  datatype Option<+T> = None | Some(value: T)
}
