// A value that may be absent, and a choice from a set in no particular order.
module Wrappers {
  datatype Option<T> = None | Some(value: T)

  method AnyOf<T>(keys: set<T>) returns (k: T)
    requires keys != {}
    ensures k in keys
  {
    k :| k in keys;
  }
}
