/** The optional value used where the source returns `null` for "no match". */
module Wrappers {

  datatype Option<+T> = None | Some(value: T)
}
