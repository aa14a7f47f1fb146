/** The optional value used for results that the source may leave unset (Python's None). */
module Wrappers {

  datatype Option<+T> = None | Some(value: T)
}
