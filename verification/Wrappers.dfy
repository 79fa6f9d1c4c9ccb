/** The two failure-carrying shapes the models use. */
module Wrappers {
  datatype Option<+T> = None | Some(value: T)
}
