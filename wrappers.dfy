/** Failure-carrying wrappers shared by the other modules. */
module Wrappers {
  datatype Option<+T> = None | Some(value: T)

  /** The value of a call that either succeeds or raises an error. */
  datatype Result<+T, +E> = Ok(value: T) | Err(error: E)
}

/** The HTTP errors the server raises, with their status codes and detail texts. */
module Http {
  datatype HttpError = HttpError(status: nat, detail: string)

  const BadRequest: nat := 400
  const Unauthorized: nat := 401
  const NotFound: nat := 404
  const InternalError: nat := 500
}
