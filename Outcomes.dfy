/** What a call into the route optimiser can end in. */
module Outcomes {

  datatype Option<+T> = None | Some(value: T)

  /** A call of the optimiser returns a value, raises an exception that nothing catches
      (IndexError, KeyError), or ends the process through `sys.exit(code)`. */
  datatype Outcome<+T> = Returned(value: T) | Raised | Exited(code: int)
}
