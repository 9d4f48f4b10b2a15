/** Helper types shared by the other modules. */
module Wrappers {

  /** A value that may be absent; the reference view of a chain's last key uses it. */
  datatype Option<+T> = None | Some(value: T)
}
