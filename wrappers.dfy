/** A value that may be absent: TypeScript's `T | null | undefined` collapsed to one case. */
module Wrappers {

  datatype Option<+T> = None | Some(value: T)
}
