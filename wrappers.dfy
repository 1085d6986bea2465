/** Failure-carrying result types shared by the codec and the agent-pool model. */
module Wrappers {

  datatype Option<+T> = None | Some(value: T)

  /** The outcome of an operation that yields a value or reports an error. */
  datatype Result<+T, +E> = Success(value: T) | Failure(error: E)

  /** The outcome of an operation that yields nothing or reports an error. */
  datatype Outcome<+E> = Pass | Fail(error: E)
}

/** The error kinds the core reports to its callers. */
module Errors {

  datatype Error =
    | InvalidArgument   // malformed constructor input, e.g. an empty parameter name
    | NotFound          // no pool (or project) with the requested id or name
    | Conflict          // the operation would break a uniqueness rule
    | InvalidOperation  // forbidden whatever the input, e.g. deleting the Default pool
}
