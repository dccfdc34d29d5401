/** Types shared by all modules. */
module Prelude {

  datatype Option<+T> = None | Some(value: T) {
    function GetOr(default: T): T {
      if Some? then value else default
    }
  }

  /** Seconds on a clock. */
  type Time = nat
}
