// Small helper datatypes shared by the modules of this project.
module Wrappers {

  /** An optional value: `None` stands for JavaScript's `null`, and for `NaN` where a parse fails. */
  datatype Option<+T> = None | Some(value: T)
}
