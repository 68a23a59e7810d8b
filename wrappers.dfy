/** The conventional optional value, used for `None`-returning searches and the hold slot. */
module Wrappers {
  datatype Option<+T> = None | Some(value: T)
}
