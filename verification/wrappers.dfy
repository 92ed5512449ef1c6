/** The optional-value datatype used throughout the model. */
module Wrappers {

  /** `None` stands for JavaScript's `undefined` (a missing property or an
      empty select). */
  datatype Option<+T> = None | Some(value: T)
}
