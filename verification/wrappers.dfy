/** Option and Result values used in place of Python's missing keys and raised exceptions. */
module Wrappers {

  datatype Option<+T> = None | Some(value: T)

  /** Ok carries a computed value; Err carries the reason the computation raised. */
  datatype Result<+T, +E> = Ok(value: T) | Err(error: E)
}

/** The ways one invocation of the action can fail. Every one of them aborts the invocation. */
module Faults {

  datatype Fault =
    /** A run's integer status is not a key of the status map (a KeyError in the action). */
    | UnknownStatus(code: int)
    /** The cancel confirmation for a run holds no timestamp in either known shape. */
    | MalformedResponse(runId: int)
}
