/** Small building blocks shared by the whole model. */
module Basics {

  /** Python's `None` / a present value. */
  datatype Option<+T> = None | Some(value: T)
}
