/** Values shared by every part of the model: optional values, the HTTP
    exceptions the framework turns into error responses, and results that
    either carry a value or the exception that was thrown instead. */
module Outcomes {

  datatype Option<+T> = None | Some(value: T)

  /** The exceptions the application throws (the framework maps each to a
      status code: 400, 404 and 500). `TypeError` stands for the
      JavaScript runtime error raised by reading a property of `undefined`. */
  datatype HttpError =
    | BadRequest(message: string)
    | NotFound(message: string)
    | TypeError

  datatype Result<+T> = Ok(value: T) | Err(error: HttpError)
}
