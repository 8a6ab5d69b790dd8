/** Option values used where the source returns `null`/`undefined` or
    raises. */
module Wrappers {

  datatype Option<+T> = None | Some(value: T)
}
