/** The optional value a dropdown holds: `None` until the user picks an entry. */
module Wrappers {

  datatype Option<+T> = None | Some(value: T)
}
