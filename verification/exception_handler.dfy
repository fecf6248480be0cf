/** `ControllerExceptionHandler`: the mapping from each exception kind to the
    error body and HTTP status returned to the client. Spring picks the most
    specific handler; here the variants of `Exception` are disjoint, so the
    choice is a `match`. */
module ExceptionHandler {
  import opened Results
  import opened Exceptions
  import opened ApiErrors

  /** The error body and the status of the HTTP response. */
  datatype ErrorResponse = ErrorResponse(body: ApiError, status: HttpStatus)

  function Handle(e: Exception): (r: ErrorResponse)
    ensures r.body.statusCode == r.status.Value() && r.body.status == r.status.Name()
    ensures (e.IllegalArgument? || e.MissingRequestParameter?) ==>
      r.status == BadRequest && r.body.message == Some(MISSING_OR_INVALID_ARGUMENT_MSG)
      && r.body.code.None? && r.body.contextDetails == [e.message]
    ensures e.InvalidResource? ==>
      r.status == UnprocessableEntity && r.body.message == Some(INVALID_RESOURCE_MSG)
      && r.body.code == e.errorCode
      && r.body.contextDetails == (if e.reasons == [] then [e.message] else e.reasons)
    ensures e.StaleResource? ==>
      r.status == UnprocessableEntity && r.body.message == Some(INVALID_RESOURCE_MSG)
      && r.body.code == e.errorCode && r.body.contextDetails == [e.message]
    ensures e.ResourceCrud? ==>
      r.status == Conflict && r.body.message == Some(RESOURCE_OPERATION_ERROR_MSG)
      && r.body.code == e.errorCode && r.body.contextDetails == [e.message]
    ensures e.ResourceNotFound? ==>
      r.status == NotFound && r.body.message == Some(RESOURCE_NOT_FOUND_MSG)
      && r.body.code == e.errorCode && r.body.contextDetails == [e.message]
    ensures e.Base? ==>
      r.status == InternalServerError && r.body.message == Some(SYSTEM_ERROR_MSG)
      && r.body.code == e.errorCode && r.body.contextDetails == [e.message]
    ensures e.Runtime? ==>
      r.status == InternalServerError && r.body.message == Some(SYSTEM_ERROR_MSG)
      && r.body.code.None? && r.body.contextDetails == [e.message]
  {
    match e
    case IllegalArgument(msg) =>
      var b := WithContextDetail(WithMessage(CreateInstance(BadRequest), MISSING_OR_INVALID_ARGUMENT_MSG), msg);
      ErrorResponse(Build(b), BadRequest)
    case MissingRequestParameter(msg) =>
      var b := WithContextDetail(WithMessage(CreateInstance(BadRequest), MISSING_OR_INVALID_ARGUMENT_MSG), msg);
      ErrorResponse(Build(b), BadRequest)
    case InvalidResource(msg, code, reasons) =>
      var b := WithCode(WithMessage(CreateInstance(UnprocessableEntity), INVALID_RESOURCE_MSG), code);
      var b' := if reasons != [] then WithContextDetails(b, reasons) else WithContextDetail(b, msg);
      WithContextDetailsAppends(b, reasons);
      ErrorResponse(Build(b'), UnprocessableEntity)
    case StaleResource(msg, code) =>
      var b := WithContextDetail(WithCode(WithMessage(CreateInstance(UnprocessableEntity), INVALID_RESOURCE_MSG), code), msg);
      ErrorResponse(Build(b), UnprocessableEntity)
    case ResourceCrud(msg, code) =>
      var b := WithContextDetail(WithCode(WithMessage(CreateInstance(Conflict), RESOURCE_OPERATION_ERROR_MSG), code), msg);
      ErrorResponse(Build(b), Conflict)
    case ResourceNotFound(msg, code) =>
      var b := WithContextDetail(WithCode(WithMessage(CreateInstance(NotFound), RESOURCE_NOT_FOUND_MSG), code), msg);
      ErrorResponse(Build(b), NotFound)
    case Base(msg, code) =>
      var b := WithContextDetail(WithCode(WithMessage(CreateInstance(InternalServerError), SYSTEM_ERROR_MSG), code), msg);
      ErrorResponse(Build(b), InternalServerError)
    case Runtime(msg) =>
      var b := WithContextDetail(WithMessage(CreateInstance(InternalServerError), SYSTEM_ERROR_MSG), msg);
      ErrorResponse(Build(b), InternalServerError)
  }

  /** Every error response has at least one detail, and a client error status
      exactly when the exception is not a system failure. */
  lemma HandleShape(e: Exception)
    ensures |Handle(e).body.contextDetails| >= 1
    ensures Handle(e).status.Value() >= 500 <==> (e.Base? || e.Runtime?)
    ensures Handle(e).status.Value() in {400, 404, 409, 422, 500}
  {
  }
}
