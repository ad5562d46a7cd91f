/** The optional-value wrapper used for JavaScript's `undefined`. */
module Wrappers {

  /** `None` stands for an absent (undefined) value. */
  datatype Option<+T> = None | Some(value: T)
}
