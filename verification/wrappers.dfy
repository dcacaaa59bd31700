/** Optional values and error-carrying results shared by the whole model. */
module Wrappers {
  import opened ErrorTypes

  /** An absent or present value: a missing query argument, an anonymous requester. */
  datatype Option<+T> = None | Some(value: T)

  /** The outcome of a request handler: a value, or the error code it answers with. */
  datatype Result<+T> = Ok(value: T) | Err(error: ErrorKind)
}

/** The error codes shared by the backend and the frontend (`ErrorTypes` of the `open-polls` package). */
module ErrorTypes {
  datatype ErrorKind =
    | VkLoginError
    | AuthorizationRequired
    | NotFoundError
    | Forbidden
    | UnknownError
}
