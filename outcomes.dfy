/** Outcomes of the request handlers: an optional value, and a result that is
    either the handler's value or one of the error responses it can send. */
module Outcomes {

  datatype Option<+T> = None | Some(value: T)

  /** The error responses of the modelled handlers. `Unauthorized` and
      `NotFound` carry the message the handler puts in its response;
      "Insufficient balance" and "Invalid transaction type" are both
      400 Bad Request responses in the service and get a case of their own. */
  datatype Error =
    | Unauthorized(message: string)
    | NotFound(message: string)
    | InsufficientBalance
    | InvalidType

  datatype Result<+T> = Ok(value: T) | Err(error: Error)
}
