/** The usual optional value, used for `NULL`-or-value results. */
module Wrappers {
  datatype Option<T> = None | Some(value: T)
}
