/** The optional value the deck operations hand back when a pile is exhausted. */
module Wrappers {

  datatype Option<+T> = None | Some(value: T)
}
