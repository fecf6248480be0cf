/** The error body the service returns (`ApiError`) and the builder that
    assembles it. The timestamp is left out: it is the current time, and error
    equality ignores it. */
module ApiErrors {
  import opened Results

  /** The HTTP statuses the service answers with. */
  datatype HttpStatus = BadRequest | NotFound | Conflict | UnprocessableEntity | InternalServerError | Ok | Created {

    /** `HttpStatus.name()`. */
    function Name(): string {
      match this
      case BadRequest => "BAD_REQUEST"
      case NotFound => "NOT_FOUND"
      case Conflict => "CONFLICT"
      case UnprocessableEntity => "UNPROCESSABLE_ENTITY"
      case InternalServerError => "INTERNAL_SERVER_ERROR"
      case Ok => "OK"
      case Created => "CREATED"
    }

    /** `HttpStatus.value()`. */
    function Value(): int {
      match this
      case BadRequest => 400
      case NotFound => 404
      case Conflict => 409
      case UnprocessableEntity => 422
      case InternalServerError => 500
      case Ok => 200
      case Created => 201
    }
  }

  /** Error codes (`ApiErrorCode`). */
  const CRITICAL_ERROR: int := 1
  const UNEXPECTED_ERROR: int := 2
  const RETRYABLE_ERROR: int := 3

  /** Error messages (`ApiErrorMessage`). */
  const AUTHENTICATION_ERROR_MSG: string := "Authentication error"
  const AUTHORIZATION_ERROR_MSG: string := "Authorization error"
  const INVALID_RESOURCE_MSG: string := "Invalid resource"
  const MISSING_OR_INVALID_ARGUMENT_MSG: string := "Missing or invalid argument"
  const RESOURCE_NOT_FOUND_MSG: string := "Resource not found"
  const RESOURCE_OPERATION_ERROR_MSG: string := "Resource operation error"
  const SYSTEM_ERROR_MSG: string := "System error"

  /** A built error; `code` and `message` stay absent unless set. */
  datatype ApiError = ApiError(
    status: string,
    statusCode: int,
    code: Option<int>,
    message: Option<string>,
    contextDetails: seq<string>)

  /** The builder's state. */
  datatype Builder = Builder(
    status: HttpStatus,
    code: Option<int>,
    message: Option<string>,
    contextDetails: seq<string>)

  /** `createInstance`: a builder for `status` with nothing else set. */
  function CreateInstance(status: HttpStatus): (b: Builder)
    ensures b.status == status
    ensures b.code.None? && b.message.None? && b.contextDetails == []
  {
    Builder(status, None, None, [])
  }

  /** `withCode`: sets the code, replacing any earlier one (a null code clears it). */
  function WithCode(b: Builder, code: Option<int>): (b': Builder)
    ensures b'.code == code
    ensures b'.status == b.status && b'.message == b.message && b'.contextDetails == b.contextDetails
  {
    b.(code := code)
  }

  /** `withMessage`: sets the message, replacing any earlier one. */
  function WithMessage(b: Builder, message: string): (b': Builder)
    ensures b'.message == Some(message)
    ensures b'.status == b.status && b'.code == b.code && b'.contextDetails == b.contextDetails
  {
    b.(message := Some(message))
  }

  /** `withContextDetail`: appends one detail after those already added. */
  function WithContextDetail(b: Builder, detail: string): (b': Builder)
    ensures b'.contextDetails == b.contextDetails + [detail]
    ensures b'.status == b.status && b'.code == b.code && b'.message == b.message
  {
    b.(contextDetails := b.contextDetails + [detail])
  }

  /** `details.forEach(builder::withContextDetail)`. */
  function WithContextDetails(b: Builder, details: seq<string>): (b': Builder)
    ensures b'.status == b.status && b'.code == b.code && b'.message == b.message
    decreases |details|
  {
    if details == [] then b
    else WithContextDetail(WithContextDetails(b, details[..|details| - 1]), details[|details| - 1])
  }

  /** `build`: the status name and number come from the builder's status, the
      rest is a copy of the builder's fields. */
  function Build(b: Builder): (e: ApiError)
    ensures e.status == b.status.Name() && e.statusCode == b.status.Value()
    ensures e.code == b.code && e.message == b.message
    ensures e.contextDetails == b.contextDetails
  {
    ApiError(b.status.Name(), b.status.Value(), b.code, b.message, b.contextDetails)
  }

  /** Details added one call at a time appear in call order after the earlier ones. */
  lemma {:induction false} WithContextDetailsAppends(b: Builder, details: seq<string>)
    ensures WithContextDetails(b, details).contextDetails == b.contextDetails + details
    decreases |details|
  {
    if details != [] {
      var init := details[..|details| - 1];
      WithContextDetailsAppends(b, init);
      assert init + [details[|details| - 1]] == details;
    }
  }

  /** A later `withCode` or `withMessage` wins over an earlier one. */
  lemma SetterOverwrites(b: Builder, c1: Option<int>, c2: Option<int>, m1: string, m2: string)
    ensures Build(WithCode(WithCode(b, c1), c2)) == Build(WithCode(b, c2))
    ensures Build(WithMessage(WithMessage(b, m1), m2)) == Build(WithMessage(b, m2))
  {
  }

  /** An error already built does not see details added to the builder afterwards:
      building again yields the old details plus the new one. */
  lemma BuildSnapshot(b: Builder, detail: string)
    ensures Build(WithContextDetail(b, detail)).contextDetails == Build(b).contextDetails + [detail]
    ensures Build(b).contextDetails == b.contextDetails
  {
  }
}
