/**
 * Shared vocabulary of the media-transcription server: optional values,
 * results that carry either a value or an error, and the structured error
 * objects (`{ code, message, suggestion? }`) that every operation throws.
 */
module Base {

  /** A value that may be absent (`undefined` in the source). */
  datatype Option<T> = None | Some(value: T) {
    function GetOr(default: T): T
    {
      match this
      case Some(v) => v
      case None => default
    }
  }

  /** Either the value an operation returns or the error it throws. */
  datatype Result<T, E> = Ok(value: T) | Err(error: E)

  /** The closed set of error codes a tool response can carry. */
  datatype ErrorCode =
    | FileNotFound
    | UnsupportedFormat
    | FileTooLarge
    | ProviderError
    | ProviderRateLimited
    | FfmpegError
    | InvalidParams
    | Timeout

  /** The plain error object `{ code, message, suggestion? }` thrown by providers and file checks. */
  datatype ErrorInfo = ErrorInfo(code: ErrorCode, message: string, suggestion: Option<string>)

  /** JavaScript truthiness of an optional string: absent and "" are both falsy. */
  predicate Truthy(s: Option<string>)
  {
    s.Some? && s.value != ""
  }

  /** `a || b` for optional strings: `a` when it is truthy, otherwise `b`. */
  function OrElse(a: Option<string>, b: Option<string>): (r: Option<string>)
    ensures Truthy(a) ==> r == a
    ensures !Truthy(a) ==> r == b
  {
    if Truthy(a) then a else b
  }

  /** `a || b || fallback` for optional strings, ending in a plain string. */
  function FirstTruthy(a: Option<string>, b: Option<string>, fallback: string): (r: string)
    ensures Truthy(a) ==> r == a.value
    ensures !Truthy(a) && Truthy(b) ==> r == b.value
    ensures !Truthy(a) && !Truthy(b) ==> r == fallback
  {
    if Truthy(a) then a.value else if Truthy(b) then b.value else fallback
  }
}
