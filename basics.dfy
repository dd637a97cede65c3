/** Small shared datatypes. */
module Basics {

  /** A value that may be missing: TypeScript's `T | undefined` and `T | null`. */
  datatype Option<+T> = None | Some(value: T)
}
