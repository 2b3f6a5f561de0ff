/** The typed errors of the checkout API and `handle_status_code`, which turns a
    response status into success, one of those errors, or nothing at all. */
module StatusCodes {

  /** One exception class per recognised error status; each carries the
      response body it was raised with. */
  datatype ApiError =
    | BadRequest(msg: string)
    | UnauthorizedException(msg: string)
    | ForbiddenException(msg: string)
    | NotFoundException(msg: string)
    | MethodNotAllowedException(msg: string)
    | NotAcceptableException(msg: string)
    | UnsupportedMediaTypeException(msg: string)
    | InternalServerErrorException(msg: string)

  /** The status each error stands for. */
  function StatusCode(e: ApiError): int {
    match e
    case BadRequest(_) => 400
    case UnauthorizedException(_) => 401
    case ForbiddenException(_) => 403
    case NotFoundException(_) => 404
    case MethodNotAllowedException(_) => 405
    case NotAcceptableException(_) => 406
    case UnsupportedMediaTypeException(_) => 415
    case InternalServerErrorException(_) => 500
  }

  const SuccessCodes: set<int> := {200, 201}
  const ErrorCodes: set<int> := {400, 401, 403, 404, 405, 406, 415, 500}

  /** What `handle_status_code` does: yield to its block, raise, or fall
      through the `case` and return `nil` without doing either. */
  datatype Handling = Yield | Raise(error: ApiError) | Ignore

  function HandleStatusCode(code: int, msg: string): (r: Handling)
    ensures r.Yield? <==> code in SuccessCodes
    ensures r.Raise? <==> code in ErrorCodes
    ensures r.Ignore? <==> code !in SuccessCodes && code !in ErrorCodes
    ensures r.Raise? ==> StatusCode(r.error) == code && r.error.msg == msg
  {
    match code
    case 200 => Yield
    case 201 => Yield
    case 400 => Raise(BadRequest(msg))
    case 401 => Raise(UnauthorizedException(msg))
    case 403 => Raise(ForbiddenException(msg))
    case 404 => Raise(NotFoundException(msg))
    case 405 => Raise(MethodNotAllowedException(msg))
    case 406 => Raise(NotAcceptableException(msg))
    case 415 => Raise(UnsupportedMediaTypeException(msg))
    case 500 => Raise(InternalServerErrorException(msg))
    case _ => Ignore
  }

  /** Every error is raised by its own status, with the body it carries. */
  lemma RaisedByItsStatus(e: ApiError)
    ensures HandleStatusCode(StatusCode(e), e.msg) == Raise(e)
  {
  }

  /** No two kinds of error share a status: an error is fixed by its status
      and its message. */
  lemma StatusCodeInjective(e1: ApiError, e2: ApiError)
    requires StatusCode(e1) == StatusCode(e2) && e1.msg == e2.msg
    ensures e1 == e2
  {
  }
}
