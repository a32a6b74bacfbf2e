/** The optional value used wherever the game returns or stores `Option<T>`. */
module Wrappers {

  datatype Option<+T> = None | Some(value: T)
}
