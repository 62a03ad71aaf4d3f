/**
 * JSON values as `json.loads` returns them, and the Python operations the
 * server applies to a decoded request: truthiness, `dict.get` with a default, `int(...)` and
 * `float(...)`. Text encoding and decoding of JSON are not part of this
 * model; they are parameters wherever they are needed.
 */
module Json {
  import opened Wrappers
  import opened Text

  datatype Json =
    | JNull
    | JBool(b: bool)
    | JInt(i: int)
    | JFloat(r: real)          // finite floats only
    | JStr(s: string)
    | JArray(items: seq<Json>)
    | JObject(fields: map<string, Json>)

  /** Python's `bool(v)` for a decoded value. */
  predicate Truthy(v: Json) {
    match v
    case JNull => false
    case JBool(b) => b
    case JInt(i) => i != 0
    case JFloat(r) => r != 0.0
    case JStr(s) => s != ""
    case JArray(a) => a != []
    case JObject(m) => m != map[]
  }

  /** Whether the value can be a dictionary key (`list` and `dict` cannot). */
  predicate Hashable(v: Json) {
    !v.JArray? && !v.JObject?
  }

  /** `request.get(key, default)`. */
  function GetOr(request: map<string, Json>, key: string, default: Json): (r: Json)
    ensures key in request ==> r == request[key]
    ensures key !in request ==> r == default
  {
    if key in request then request[key] else default
  }

  /** Python's `int(x)` for a real: truncation toward zero. */
  function Truncate(r: real): (i: int)
    ensures r >= 0.0 ==> i as real <= r < i as real + 1.0
    ensures r < 0.0 ==> i as real - 1.0 < r <= i as real
  {
    if r >= 0.0 then r.Floor else -((-r).Floor)
  }

  /**
   * Python's `int(v)` for a decoded value: `None` where it raises (`TypeError`
   * for `None`, lists and dicts, `ValueError` for text that is not a base-10
   * integer).
   */
  function IntOf(v: Json): (r: Option<int>)
    ensures v.JInt? ==> r == Some(v.i)
    ensures v.JNull? || v.JArray? || v.JObject? ==> r == None
  {
    match v
    case JNull => None
    case JBool(b) => Some(if b then 1 else 0)
    case JInt(i) => Some(i)
    case JFloat(r) => Some(Truncate(r))
    case JStr(s) => IntOfText(s)
    case JArray(_) => None
    case JObject(_) => None
  }

  /**
   * `int()` recovers a size from each form a request may carry it in: the
   * integer itself, its decimal text with or without a minus sign, and a
   * float with no fractional part.
   */
  lemma IntOfSize(n: nat)
    ensures IntOf(JInt(n)) == Some(n)
    ensures IntOf(JStr(DecimalText(n))) == Some(n)
    ensures IntOf(JStr("-" + DecimalText(n))) == Some(-(n as int))
    ensures IntOf(JFloat(n as real)) == Some(n)
  {
    DecimalRoundTrip(n);
    NegativeRoundTrip(n);
  }

  /**
   * Python's `float(v)`; `floatOfText` stands for `float(str)`, whose decimal
   * syntax is not modelled. `None` where it raises.
   */
  function FloatOf(v: Json, floatOfText: string -> Option<real>): (r: Option<real>)
    ensures v.JInt? ==> r == Some(v.i as real)
    ensures v.JFloat? ==> r == Some(v.r)
    ensures v.JNull? || v.JArray? || v.JObject? ==> r == None
  {
    match v
    case JNull => None
    case JBool(b) => Some(if b then 1.0 else 0.0)
    case JInt(i) => Some(i as real)
    case JFloat(r) => Some(r)
    case JStr(s) => floatOfText(s)
    case JArray(_) => None
    case JObject(_) => None
  }
}
