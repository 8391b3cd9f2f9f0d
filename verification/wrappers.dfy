/** Absence markers for lookups that may find nothing (the source's `undefined`). */
module Wrappers {

  datatype Option<+T> = None | Some(value: T)
}
