/** The optional value used for nullable fields (`T | null`, `T | undefined`). */
module Wrappers {

  datatype Option<+T> = None | Some(value: T)
}
