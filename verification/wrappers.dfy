/** The optional result of a lookup: `None` stands for the "not found" outcome. */
module Wrappers {

  datatype Option<+T> = None | Some(value: T)
}
