/** The optional value used by the lookups and scanners of this model. */
module Wrappers {

  datatype Option<+T> = None | Some(value: T)
}
