/** The `Option` type used for lookups and store faults. */
module Wrappers {

  datatype Option<+T> = None | Some(value: T)
}
