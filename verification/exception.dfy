/** The not-found failure and the single recovery point that turns any failure into an
    HTTP status and an envelope. */
module Exception {
  import opened Failures
  import opened Http
  import opened Web

  /** `exception.NewNotFoundError`. */
  function NewNotFoundError(error: string): (f: Failure)
    ensures f.NotFound? && f.message == error
  {
    NotFound(error)
  }

  /** `exception.PanicNotFoundError`: a nil error lets the caller carry on; any other error
      aborts with a not-found failure carrying that error's message. */
  function PanicNotFoundError(err: Option<string>): (r: Result<()>)
    ensures r.Ok? <==> err.None?
    ensures err.Some? ==> r.failure == NotFound(err.value)
  {
    match err
    case None => Ok(())
    case Some(message) => Err(NewNotFoundError(message))
  }

  /** What the handler writes: the status passed to `WriteHeader` and the JSON body. */
  datatype Response = Response(status: int, body: WebResponse)

  /** An envelope whose code is the status written and whose status is its reason phrase. */
  function Reply(code: int, data: Data): Response {
    Response(code, WebResponse(code, StatusText(code), data))
  }

  /** `notFoundError`: answers exactly the failures whose dynamic type is `NotFoundError`. */
  function NotFoundBranch(f: Failure): (r: Option<Response>)
    ensures r.Some? <==> f.NotFound?
    ensures r.Some? ==> r.value.status == StatusNotFound && r.value.body.data == Message(f.message)
  {
    if f.NotFound? then Some(Reply(StatusNotFound, Message(f.message))) else None
  }

  /** `validationErrors`: answers exactly the `validator.ValidationErrors` failures, with
      their aggregated message. */
  function ValidationBranch(f: Failure): (r: Option<Response>)
    ensures r.Some? <==> f.Validation?
    ensures r.Some? ==> r.value.status == StatusBadRequest && r.value.body.data == Message(f.message)
  {
    if f.Validation? then Some(Reply(StatusBadRequest, Message(f.message))) else None
  }

  /** `internalServerError`: answers any failure at all, carrying the failure value itself. */
  function InternalServerError(f: Failure): (r: Response)
    ensures r.status == StatusInternalServerError && r.body.data == Raw(f)
  {
    Reply(StatusInternalServerError, Raw(f))
  }

  /** `exception.ErrorHandler`: not-found first, then validation, else internal error. */
  function ErrorHandler(f: Failure): (r: Response)
    ensures r.status in {StatusNotFound, StatusBadRequest, StatusInternalServerError}
    ensures r.body.code == r.status && r.body.status == StatusText(r.status)
    ensures r.status == StatusNotFound <==> f.NotFound?
    ensures r.status == StatusBadRequest <==> f.Validation?
    ensures r.status == StatusInternalServerError <==> f.Other?
  {
    match NotFoundBranch(f)
    case Some(written) => written
    case None =>
      match ValidationBranch(f)
      case Some(written) => written
      case None => InternalServerError(f)
  }
}
