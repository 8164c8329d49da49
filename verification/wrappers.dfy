/** The optional value used for "absent" results and for the keys of a partial record. */
module Wrappers {

  datatype Option<+T> = None | Some(value: T)
}
