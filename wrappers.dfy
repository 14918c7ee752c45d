/** Small helper datatypes shared by the rule evaluators. */
module Wrappers {
  datatype Option<+T> = None | Some(value: T)
}
