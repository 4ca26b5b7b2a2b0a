/** Small failure-compatible wrapper shared by the other modules. */
module Wrappers {

  /** The outcome of a lookup or parse that may produce nothing. */
  datatype Option<+T> = None | Some(value: T)
}
