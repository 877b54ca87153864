/** Option: the outcome of operations that can raise in the modelled code. */
module Wrappers {

  datatype Option<+T> = None | Some(value: T)
}
