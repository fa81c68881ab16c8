/**
 Shared vocabulary of the model: nullable values, the exceptions the service
 raises, and Apache Commons' `StringUtils.isBlank`.
 */
module Common {

  /** A Java reference that may be null. */
  datatype Option<+T> = None | Some(value: T) {
    function GetOr(default: T): T {
      match this
      case Some(v) => v
      case None => default
    }
  }

  /** `Integer.MIN_VALUE` and `Integer.MAX_VALUE`. */
  const MIN_INT: int := -0x8000_0000
  const MAX_INT: int := 0x7FFF_FFFF

  /** A Java `int`. */
  type Int32 = x: int | MIN_INT <= x <= MAX_INT

  /** The exceptions the modelled code raises. */
  datatype Error =
    | BadRequest(reason: BadRequestReason)  // BadRequestException
    | InvalidEntity                         // Validate.entityThrowingException
    | EntityNotFound(entity: string)        // EntityNotFoundException
    | NullPointer                           // a dereference or checkNotNull of null
    | Arithmetic                            // ArithmeticException (division by zero)
    | Runtime                               // RuntimeException wrapping another failure

  /** Which BadRequestException was raised, without its English text. */
  datatype BadRequestReason =
    | EventIdRequired
    | NegativeOffset
    | PageSize
    | InvalidEventId(rejectedEventId: string)
    | PublishFailed(failedEventIds: seq<Option<string>>)
    | DeleteFailed(deletedEventId: Option<string>)

  datatype Result<+T> = Success(value: T) | Failure(error: Error) {
    predicate IsFailure() { Failure? }
    function PropagateFailure<U>(): Result<U>
      requires Failure?
    {
      Failure(error)
    }
    function Extract(): T
      requires Success?
    {
      value
    }
  }

  /** `Character.isWhitespace`: the Unicode space separators other than the
      non-breaking ones, plus the ASCII controls TAB through CR and FS through US. */
  predicate IsWhitespace(c: char) {
    || ('\t' <= c <= '\r')
    || ('\U{1C}' <= c <= ' ')
    || c == '\U{1680}'
    || ('\U{2000}' <= c <= '\U{2006}')
    || ('\U{2008}' <= c <= '\U{200A}')
    || c == '\U{2028}' || c == '\U{2029}' || c == '\U{205F}' || c == '\U{3000}'
  }

  /** `StringUtils.isBlank`: null, empty, or whitespace only. */
  predicate IsBlank(s: Option<string>) {
    match s
    case None => true
    case Some(str) => forall i :: 0 <= i < |str| ==> IsWhitespace(str[i])
  }

  /** A message code given to Spring's `Errors.rejectValue`. */
  datatype Code =
    | Text(text: string)
    | CannotBeBlank  // `Validate.CANNOT_BE_BLANK`, whose text is defined outside this model

  /** One rejected field: its full nested path and its code. */
  datatype FieldError = FieldError(field: string, code: Code)
}
