/**
  Shared vocabulary of the model: optional values and results, the handful of
  JavaScript value semantics the handlers rely on (`??`, truthiness, `String(x)`),
  and the tRPC error codes the routers throw.
 */
module Common {

  datatype Option<+T> = None | Some(value: T) {
    /** `x ?? default` for a value that is either present or null/undefined. */
    function GetOr(default: T): T {
      match this
      case Some(v) => v
      case None => default
    }
  }

  datatype Result<+T, +E> = Ok(value: T) | Err(error: E)

  /** The tRPC error codes thrown by the routers. */
  datatype TrpcCode =
    | BadRequest
    | Unauthorized
    | Forbidden
    | NotFound
    | Conflict
    | TooManyRequests
    | InternalServerError

  /** A TypeScript field of type `string | null | undefined`. */
  datatype Nullable = Undefined | Null | Str(s: string)

  /** An untyped JavaScript value as it arrives from JSON or a provider profile.
      Numbers are restricted to integers. */
  datatype JsValue =
    | JsUndefined
    | JsNull
    | JsBool(b: bool)
    | JsNumber(n: int)
    | JsString(s: string)

  /** JavaScript truthiness of an optional string: present and non-empty. */
  predicate Truthy(s: Option<string>) {
    s.Some? && s.value != ""
  }

  /** JavaScript truthiness of a primitive value. */
  predicate JsTruthy(v: JsValue) {
    match v
    case JsUndefined => false
    case JsNull => false
    case JsBool(b) => b
    case JsNumber(n) => n != 0
    case JsString(s) => s != ""
  }

  /** Looks up a key of a JavaScript record; a missing key reads as `undefined`. */
  function Field(record: map<string, JsValue>, key: string): (r: JsValue)
    ensures key !in record ==> r == JsUndefined
    ensures key in record ==> r == record[key]
  {
    if key in record then record[key] else JsUndefined
  }

  function DigitChar(d: nat): (c: char)
    requires d < 10
    ensures c as int == '0' as int + d
  {
    "0123456789"[d]
  }

  /** The number a string of decimal digits denotes, most significant first. */
  function DecimalValue(s: string): int
    decreases |s|
  {
    if |s| == 0 then 0 else DecimalValue(s[..|s| - 1]) * 10 + (s[|s| - 1] as int - '0' as int)
  }

  /** Decimal rendering of a natural number: digits only, no leading zero, and
      they denote `n`. */
  function NatToDecimal(n: nat): (r: string)
    ensures |r| > 0
    ensures forall i :: 0 <= i < |r| ==> '0' <= r[i] <= '9'
    ensures |r| > 1 ==> r[0] != '0'
    ensures DecimalValue(r) == n
    decreases n
  {
    if n < 10 then
      var r := [DigitChar(n)];
      assert r[..0] == [];
      r
    else
      var prefix := NatToDecimal(n / 10);
      var r := prefix + [DigitChar(n % 10)];
      assert r[..|r| - 1] == prefix;
      r
  }

  /** `String(v)` for a primitive JavaScript value. */
  function ToJsString(v: JsValue): (r: string)
    ensures v.JsString? ==> r == v.s
    ensures v.JsUndefined? ==> r == "undefined"
    ensures v.JsNull? ==> r == "null"
    ensures v.JsBool? ==> r == (if v.b then "true" else "false")
    ensures v.JsNumber? && v.n >= 0 ==>
      && |r| > 0
      && (forall i :: 0 <= i < |r| ==> '0' <= r[i] <= '9')
      && (|r| > 1 ==> r[0] != '0')
      && DecimalValue(r) == v.n
    ensures v.JsNumber? && v.n < 0 ==>
      && |r| > 1 && r[0] == '-'
      && (forall i :: 1 <= i < |r| ==> '0' <= r[i] <= '9')
      && r[1] != '0'
      && DecimalValue(r[1..]) == -v.n
  {
    match v
    case JsUndefined => "undefined"
    case JsNull => "null"
    case JsBool(b) => if b then "true" else "false"
    case JsNumber(n) => if n < 0 then "-" + NatToDecimal(-n) else NatToDecimal(n)
    case JsString(s) => s
  }
}
