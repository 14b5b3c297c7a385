/** The optional-value wrapper used for Go's nil interfaces and nil results. */
module Wrappers {

  /** `None` plays the role of Go's untyped `nil`; `Some(x)` holds a present value. */
  datatype Option<+T> = None | Some(value: T)
}
