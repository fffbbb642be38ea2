/** Option and Result types shared by the whole booking model, and the
    failures the backend reports. */
module Wrappers {

  datatype Option<+T> = None | Some(value: T)

  /** How an operation of the backend fails. */
  datatype Failure =
    /** An `AppError(message, statusCode)` thrown on purpose. */
    | AppError(message: string, statusCode: nat)
    /** A plain `Error`, a `TypeError` or a Mongoose validation error; the
        caller's error handler decides its HTTP status. */
    | Thrown(message: string)
    /** The source loops forever (the slot loop with a non-positive step). */
    | Diverges

  datatype Result<+T> = Ok(value: T) | Err(error: Failure)
}
