/** Python's `None`-or-value, used for every `Optional[...]` field of the curator. */
module Wrappers {

  datatype Option<+T> = None | Some(value: T)
}
