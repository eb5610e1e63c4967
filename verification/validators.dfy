/**
 * The tool-argument validators. Each takes an untyped JSON-ish argument
 * value and either returns the typed, normalised value or fails with a
 * `ToolInputError` whose code is always INVALID_PARAMS.
 */
module Validators {
  import opened Base
  import opened Text

  /** The argument values a tool can receive: `undefined`, `null`, booleans, finite
      numbers, NaN, strings and (opaque) objects. */
  datatype JsValue =
    | Undefined
    | Null
    | Bool(b: bool)
    | Num(n: real)
    | NaN
    | Str(s: string)
    | Object

  /** The error class the validators throw: a code, a message and an optional suggestion. */
  datatype ToolInputError = ToolInputError(code: ErrorCode, message: string, suggestion: Option<string>)

  /** A validator failure: always INVALID_PARAMS, never with a suggestion. */
  function Invalid(message: string): ToolInputError
  {
    ToolInputError(InvalidParams, message, None)
  }

  /** `value === undefined || value === null`. */
  predicate Absent(v: JsValue)
  {
    v.Undefined? || v.Null?
  }

  /** The field name as the messages quote it. */
  function Quote(field: string): string
  {
    "'" + field + "'"
  }

  /** `String(value)`. */
  function ValueText(v: JsValue): string
  {
    match v
    case Undefined => "undefined"
    case Null => "null"
    case Bool(b) => if b then "true" else "false"
    case Num(n) => NumberToString(n)
    case NaN => "NaN"
    case Str(s) => s
    case Object => "[object Object]"
  }

  // ---------------------------------------------------------------------------
  // Validators
  // ---------------------------------------------------------------------------

  /** `requireString`: a string that is not blank, returned trimmed. */
  function RequireString(v: JsValue, field: string): (r: Result<string, ToolInputError>)
    ensures r.Ok? <==> v.Str? && Trim(v.s) != ""
    ensures r.Ok? ==> r.value == Trim(v.s)
    ensures r.Err? ==> r.error == Invalid(Quote(field) + " is required and must be a non-empty string.")
  {
    if !v.Str? || |Trim(v.s)| == 0 then
      Err(Invalid(Quote(field) + " is required and must be a non-empty string."))
    else Ok(Trim(v.s))
  }

  /** `optionalString`: absent gives `None`, a string gives its trimmed form (possibly ""). */
  function OptionalString(v: JsValue, field: string): (r: Result<Option<string>, ToolInputError>)
    ensures Absent(v) ==> r == Ok(None)
    ensures v.Str? ==> r == Ok(Some(Trim(v.s)))
    ensures !Absent(v) && !v.Str? ==> r == Err(Invalid(Quote(field) + " must be a string."))
  {
    if Absent(v) then Ok(None)
    else if !v.Str? then Err(Invalid(Quote(field) + " must be a string."))
    else Ok(Some(Trim(v.s)))
  }

  /** `optionalEnum`: absent gives the default; otherwise the exact (case-sensitive,
      untrimmed) string must be one of `allowed`. */
  function OptionalEnum(v: JsValue, field: string, allowed: seq<string>, default: string): (r: Result<string, ToolInputError>)
    ensures Absent(v) ==> r == Ok(default)
    ensures !Absent(v) ==> (r.Ok? <==> v.Str? && v.s in allowed)
    ensures r.Ok? ==> r.value in allowed || r.value == default
    ensures r.Ok? && !Absent(v) ==> r.value == v.s
    ensures r.Err? ==> r.error == Invalid(Quote(field) + " must be one of: " + Join(allowed, ", ") + ". Got: " + ValueText(v))
  {
    if Absent(v) then Ok(default)
    else if !v.Str? || v.s !in allowed then
      Err(Invalid(Quote(field) + " must be one of: " + Join(allowed, ", ") + ". Got: " + ValueText(v)))
    else Ok(v.s)
  }

  /** `optionalBoolean`: absent gives the default, a boolean is returned as is. */
  function OptionalBoolean(v: JsValue, field: string, default: bool): (r: Result<bool, ToolInputError>)
    ensures Absent(v) ==> r == Ok(default)
    ensures v.Bool? ==> r == Ok(v.b)
    ensures !Absent(v) && !v.Bool? ==> r == Err(Invalid(Quote(field) + " must be a boolean."))
  {
    if Absent(v) then Ok(default)
    else if !v.Bool? then Err(Invalid(Quote(field) + " must be a boolean."))
    else Ok(v.b)
  }

  /** Whether `x` lies within the optional inclusive bounds. */
  predicate InBounds(x: real, min: Option<int>, max: Option<int>)
  {
    (min.None? || x >= min.value as real) && (max.None? || x <= max.value as real)
  }

  /** `optionalNumber`: absent gives the default (not range-checked); otherwise a
      number (not NaN) within the inclusive bounds, checked lower bound first. */
  function OptionalNumber(v: JsValue, field: string, default: real, min: Option<int>, max: Option<int>): (r: Result<real, ToolInputError>)
    ensures Absent(v) ==> r == Ok(default)
    ensures !Absent(v) ==> (r.Ok? <==> v.Num? && InBounds(v.n, min, max))
    ensures r.Ok? && !Absent(v) ==> r.value == v.n
    ensures !Absent(v) && !v.Num? ==> r == Err(Invalid(Quote(field) + " must be a number."))
    ensures v.Num? && min.Some? && v.n < min.value as real ==>
      r == Err(Invalid(Quote(field) + " must be >= " + IntToString(min.value) + "."))
    ensures v.Num? && (min.None? || v.n >= min.value as real) && max.Some? && v.n > max.value as real ==>
      r == Err(Invalid(Quote(field) + " must be <= " + IntToString(max.value) + "."))
  {
    if Absent(v) then Ok(default)
    else if !v.Num? then Err(Invalid(Quote(field) + " must be a number."))
    else if min.Some? && v.n < min.value as real then
      Err(Invalid(Quote(field) + " must be >= " + IntToString(min.value) + "."))
    else if max.Some? && v.n > max.value as real then
      Err(Invalid(Quote(field) + " must be <= " + IntToString(max.value) + "."))
    else Ok(v.n)
  }

  // ---------------------------------------------------------------------------
  // Properties across the validators
  // ---------------------------------------------------------------------------

  /** A failed validation is INVALID_PARAMS without a suggestion. */
  predicate ParamFailure<T>(r: Result<T, ToolInputError>)
  {
    r.Err? ==> r.error.code == InvalidParams && r.error.suggestion.None?
  }

  /** Every validator failure is INVALID_PARAMS without a suggestion. */
  lemma FailuresAreInvalidParams(v: JsValue, field: string, allowed: seq<string>, dflt: string,
                                 b: bool, x: real, min: Option<int>, max: Option<int>)
    ensures ParamFailure(RequireString(v, field))
    ensures ParamFailure(OptionalString(v, field))
    ensures ParamFailure(OptionalEnum(v, field, allowed, dflt))
    ensures ParamFailure(OptionalBoolean(v, field, b))
    ensures ParamFailure(OptionalNumber(v, field, x, min, max))
  {
  }

  /** A value `requireString` accepted is accepted again unchanged: its result is already trimmed. */
  lemma RequireStringIdempotent(v: JsValue, field: string)
    requires RequireString(v, field).Ok?
    ensures RequireString(Str(RequireString(v, field).value), field) == RequireString(v, field)
  {
    var t := Trim(v.s);
    TrimClean(t);
  }

  /** On a non-blank string the optional and the required string validators agree. */
  lemma OptionalAgreesWithRequired(v: JsValue, field: string)
    requires RequireString(v, field).Ok?
    ensures OptionalString(v, field) == Ok(Some(RequireString(v, field).value))
  {
  }

  /** A value that is not a number fails the type check, never a range check. */
  lemma TypeCheckBeforeRange(v: JsValue, field: string, x: real, min: Option<int>, max: Option<int>)
    requires !Absent(v) && !v.Num?
    ensures OptionalNumber(v, field, x, min, max).Err?
    ensures OptionalNumber(v, field, x, min, max).error.message == Quote(field) + " must be a number."
  {
  }

  /** Both bounds are inclusive: a value equal to either bound is accepted. */
  lemma BoundsAreInclusive(field: string, x: real, lo: int, hi: int)
    requires lo <= hi
    ensures OptionalNumber(Num(lo as real), field, x, Some(lo), Some(hi)) == Ok(lo as real)
    ensures OptionalNumber(Num(hi as real), field, x, Some(lo), Some(hi)) == Ok(hi as real)
  {
  }
}
