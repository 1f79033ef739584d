/** The optional-value datatype used where the planner's functions return `null`. */
module Wrappers {

  /** `None` stands for JavaScript `null`; `Some(v)` for a present value. */
  datatype Option<+T> = None | Some(value: T)
}
