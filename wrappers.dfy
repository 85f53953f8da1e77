/** The "no prediction" marker: a slot either holds a value or holds nothing,
    which is distinct from holding the number 0.0. */
module Wrappers {

  datatype Option<+T> = None | Some(value: T)

}
