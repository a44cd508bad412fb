/** Optional values, for the fields the records may leave out (`field?:` in TypeScript). */
module Wrappers {

  datatype Option<+T> = None | Some(value: T)
}
