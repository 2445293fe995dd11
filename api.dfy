/** The HTTP API's error responses: which status each failure is served with. */
module Api {
  import opened AppErrors
  import opened Wire

  /** The engine's error: an application error, or an internal failure with a report. */
  datatype EngineError = ApplicationFailure(error: ApplicationError) | EngineInternal(report: string)

  datatype ApiError =
    | BadRequest(message: ErrorMessage)
    | InternalError(message: ErrorMessage)
    | NotFoundError(message: ErrorMessage)
    | UnimplementedError(message: ErrorMessage)

  /** The HTTP status of each response variant. */
  function Status(e: ApiError): (code: int)
    ensures code in {400, 404, 500}
    ensures code == 400 <==> e.BadRequest?
    ensures code == 500 <==> e.InternalError?
    ensures code == 404 <==> e.NotFoundError? || e.UnimplementedError?
  {
    match e
    case BadRequest(_) => 400
    case InternalError(_) => 500
    case NotFoundError(_) => 404
    case UnimplementedError(_) => 404
  }

  const INVALID_ID_ARGUMENT: string := "ID"
  const INVALID_ID_REASON: string := "is not a valid UUID"

  /** `Error::internal`: a 500 response with no detail. */
  function InternalResponse(): (e: ApiError)
    ensures Status(e) == 500 && e.message == ErrorMessage.Internal
  {
    InternalError(ErrorMessage.Internal)
  }

  /** `Error::invalid_id`: a 400 response naming the `ID` argument. */
  function InvalidId(): (e: ApiError)
    ensures Status(e) == 400
    ensures e.message == ErrorMessage.InvalidArgument(INVALID_ID_ARGUMENT, INVALID_ID_REASON)
  {
    BadRequest(ErrorMessage.InvalidArgument(INVALID_ID_ARGUMENT, INVALID_ID_REASON))
  }

  /** `Error::unimplemented`: served with the not-found status. */
  function UnimplementedResponse(): (e: ApiError)
    ensures Status(e) == 404 && e.message == ErrorMessage.Unimplemented
  {
    UnimplementedError(ErrorMessage.Unimplemented)
  }

  /** `From<EngineError>`: invalid arguments are 400, missing resources 404, anything internal a bare 500. */
  function FromEngineError(e: EngineError): (r: ApiError)
    ensures e.ApplicationFailure? && e.error.InvalidArgument? ==>
      Status(r) == 400 && r.message == ErrorMessage.InvalidArgument(e.error.argument, e.error.reason)
    ensures e.ApplicationFailure? && e.error.NotFound? ==>
      Status(r) == 404 && r.message == ErrorMessage.NotFound(e.error.resource, e.error.id)
    ensures (e.EngineInternal? || e.error.Internal?) ==> r == InternalResponse()
  {
    match e
    case ApplicationFailure(InvalidArgument(argument, reason)) => BadRequest(ErrorMessage.InvalidArgument(argument, reason))
    case ApplicationFailure(NotFound(resource, id)) => NotFoundError(ErrorMessage.NotFound(resource, id))
    case ApplicationFailure(Internal(_)) => InternalResponse()
    case EngineInternal(_) => InternalResponse()
  }

  /** An application error's response body is the wire crate's message for it. */
  lemma ResponseBodyIsWireMessage(e: ApplicationError)
    ensures FromEngineError(ApplicationFailure(e)).message == FromApplicationError(e)
  {
  }
}
