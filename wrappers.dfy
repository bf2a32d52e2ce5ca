/** The optional value the page script expresses with `null`. */
module Wrappers {
  datatype Option<+T> = None | Some(value: T)
}
