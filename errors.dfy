/** Results and the exceptions the services throw.
    Each NestJS exception class becomes one constructor of HttpError; the
    plain JavaScript `Error` becomes InternalError, and a statement the
    database refuses (a violated constraint) becomes QueryFailed. */
module Errors {

  datatype Option<+T> = None | Some(value: T)

  datatype HttpError =
    | NotFound(message: string)       // NotFoundException, HTTP 404
    | Conflict(message: string)       // ConflictException, HTTP 409
    | BadRequest(message: string)     // BadRequestException, HTTP 400
    | Unauthorized(message: string)   // UnauthorizedException, HTTP 401
    | InternalError(message: string)  // a plain Error, surfaced as HTTP 500
    | QueryFailed(message: string)    // the database rejected the statement

  datatype Result<+T> = Ok(value: T) | Err(error: HttpError)

  /** The message of `NotFoundException(`Post with ID ${id} not found`)`. */
  function PostNotFound(id: string): (m: string)
    ensures |m| == |id| + 23
    ensures m[..13] == "Post with ID " && m[13..|m| - 10] == id && m[|m| - 10..] == " not found"
  {
    "Post with ID " + id + " not found"
  }
}
