/** Swift optionals, written as a datatype. */
module Wrappers {

  /** `None` stands for Swift's `nil`, `Some(v)` for a present value. */
  datatype Option<+T> = None | Some(value: T)
}
