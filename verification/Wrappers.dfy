/** Result and Option types, and the gRPC status codes the driver returns. */
module Wrappers {

  datatype Option<+T> = None | Some(value: T)

  /** Unknown is what gRPC makes of an error that carries no status of its own. */
  datatype Code =
    | InvalidArgument | NotFound | AlreadyExists | FailedPrecondition
    | Aborted | OutOfRange | ResourceExhausted | Internal | Unknown

  datatype Result<+T> = Ok(value: T) | Err(code: Code)

  /** What a call into the IaaS API gives: a value, a not-found error, or any other error. */
  datatype Reply<+T> = Value(value: T) | Missing | Failure

  /** How a call into the IaaS API ends: Fail is an error without effect, FailLate an error
      although the request took effect, NotFoundError an error that client.IsNotFound recognises. */
  datatype Outcome = Good | Fail | FailLate | NotFoundError
}
