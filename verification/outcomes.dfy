/**
  Shared failure-carrying datatypes. A Java `CompletableFuture` that
  completes normally becomes `Ok`, one that completes exceptionally becomes
  `Err` with the kind of exception that ended it.
 */
module Outcomes {

  datatype Option<+T> = None | Some(value: T)

  /** Why an asynchronous call failed. */
  datatype Failure =
    | TransportFailed            // sendAsync itself failed (connection, I/O)
    | UnexpectedStatus(code: int) // the panel answered with a code the call does not accept
    | Malformed                  // the body is not the JSON shape the call reads
    | TimedOut                   // orTimeout fired before the future completed

  datatype Result<+T> = Ok(value: T) | Err(failure: Failure)
}
