/** The usual optional-value wrapper, standing for Ruby's `nil`-or-value. */
module Wrappers {

  datatype Option<+T> = None | Some(value: T)

}
