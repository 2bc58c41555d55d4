/** The optional value used where the solver returns `None`. */
module Wrappers {

  datatype Option<+T> = None | Some(value: T)
}
