/**
 * Decoded JSON / YAML values as Python sees them, with the three Python
 * conversions the modelled code applies to them: truthiness, `int(v)` and
 * `str(v)`.
 */
module PyValue {
  import opened Wrappers
  import Strings

  /**
   * What Python's float machinery made of a decoded float, supplied as data:
   * for a finite float, the value `int()` truncates it to and whether it is
   * non-zero; otherwise one of the non-finite values `json` also accepts
   * ("Infinity", "-Infinity", "NaN").
   */
  datatype FloatValue = Finite(truncated: int, nonZero: bool) | Infinite | NotANumber

  /** A decoded JSON value. A float also carries the text Python prints for it. */
  datatype Value =
    | VNull
    | VBool(b: bool)
    | VInt(i: int)
    | VFloat(repr: string, float: FloatValue)
    | VStr(s: string)
    | VArray(items: seq<Value>)
    | VObject(fields: map<string, Value>)

  /** Python `bool(v)`. */
  predicate Truthy(v: Value) {
    match v
    case VNull => false
    case VBool(b) => b
    case VInt(i) => i != 0
    case VFloat(_, f) => !f.Finite? || f.nonZero
    case VStr(s) => |s| > 0
    case VArray(items) => |items| > 0
    case VObject(fields) => |fields| > 0
  }

  /** Why a conversion raised. */
  datatype PyError = TypeError | ValueError | OverflowError

  /**
   * Python `int(v)`: an infinite float overflows and NaN is a value error;
   * only those two raise OverflowError or ValueError for a float.
   */
  function ToInt(v: Value): (r: Result<int, PyError>)
    ensures v.VInt? ==> r == Success(v.i)
    ensures v.VNull? || v.VArray? || v.VObject? ==> r == Failure(TypeError)
    ensures v.VStr? ==> (r.Success? <==> Strings.ParseInt(v.s).Some?)
    ensures v.VFloat? ==> (r.Success? <==> v.float.Finite?)
    ensures r == Failure(OverflowError) <==> v.VFloat? && v.float.Infinite?
    ensures v.VFloat? && v.float.NotANumber? ==> r == Failure(ValueError)
  {
    match v
    case VInt(i) => Success(i)
    case VBool(b) => Success(if b then 1 else 0)
    case VFloat(_, Finite(t, _)) => Success(t)
    case VFloat(_, Infinite) => Failure(OverflowError)
    case VFloat(_, NotANumber) => Failure(ValueError)
    case VStr(s) =>
      (match Strings.ParseInt(s)
       case Some(n) => Success(n)
       case None => Failure(ValueError))
    case _ => Failure(TypeError)
  }

  /**
   * Python `str(v)`. Non-empty lists and dicts print through `repr`, which is
   * not modelled: they render as a fixed placeholder.
   */
  function ToStr(v: Value): (r: string)
    ensures v.VStr? ==> r == v.s
    ensures v.VInt? ==> Strings.ParseInt(r) == Some(v.i)
    ensures v.VNull? || v.VBool? || v.VInt? || v.VArray? || v.VObject? ==> |r| > 0
  {
    match v
    case VNull => "None"
    case VBool(b) => if b then "True" else "False"
    case VInt(i) => Strings.ParseIntOfDecimal(i); Strings.IntToDecimal(i)
    case VFloat(text, _) => text
    case VStr(s) => s
    case VArray(items) => if items == [] then "[]" else "[...]"
    case VObject(fields) => if fields == map[] then "{}" else "{...}"
  }

  /** Python `len(v)`; None where `len` raises TypeError. */
  function Length(v: Value): Option<nat> {
    match v
    case VStr(s) => Some(|s|)
    case VArray(items) => Some(|items|)
    case VObject(fields) => Some(|fields|)
    case _ => None
  }

  /** `d.get(key)` on a dict. */
  function Get(fields: map<string, Value>, key: string): Option<Value> {
    if key in fields then Some(fields[key]) else None
  }

  /** Python `a or b` on optional values (an absent value is `None`, which is falsy). */
  function Or(a: Option<Value>, b: Option<Value>): (r: Option<Value>)
    ensures a.Some? && Truthy(a.value) ==> r == a
    ensures (a.None? || !Truthy(a.value)) ==> r == b
  {
    if a.Some? && Truthy(a.value) then a else b
  }

  predicate OptTruthy(v: Option<Value>) {
    v.Some? && Truthy(v.value)
  }
}
