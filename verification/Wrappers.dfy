/** Result types shared by the modules. */
module Wrappers {
  datatype Option<+T> = None | Some(value: T) {
    function GetOr(default: T): T {
      if Some? then value else default
    }
  }

  /** The outcome of a call that may throw: a value, or an error whose text is not modelled. */
  datatype Reply<+T> = Ok(value: T) | Failed {
    function Or(default: T): T {
      if Ok? then value else default
    }
  }
}
