/** The optional value the stores use for "no best time yet" and "no timer". */
module Wrappers {

  datatype Option<+T> = None | Some(value: T)

}
