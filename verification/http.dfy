/**
 * What a controller hands back to Express: either a JSON reply with its status,
 * or an error passed to `next()`.
 */
module Http {

  /** Exceptions raised by a collaborator (Mongoose, MongoDB, the JavaScript runtime). */
  datatype Cause =
    | ValidationFailed   // a Mongoose validator or cast rejected the document
    | DuplicateKey       // the unique index on users' email rejected the write
    | NegativeSkip       // MongoDB refuses a find with a negative skip
    | ReferenceError     // an identifier that was never declared was evaluated
    | NullDereference    // a property was read from a `null` lookup result

  datatype ApiError =
    /** An `ErrorResponse(message, status)` built by the controller itself. */
    | Reject(status: nat, message: string)
    /** An exception; the error middleware (not part of this model) picks its status. */
    | Thrown(cause: Cause)

  datatype Response<+T> = Reply(status: nat, body: T) | Fail(error: ApiError)
}
