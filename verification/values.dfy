/** The JSON-shaped scalars the tools receive in request bodies, with the
    Python conversions the tools apply to them: truthiness, the missing-field
    test `v in [None, "", 0, "0"]`, `float(v)`, `int(v)` and `int(float(v))`.
    Python floats are read as exact reals; infinities and NaN are not values
    of this model. */
module Values {
  import opened Optional
  import opened Text

  datatype Value = Null | Bool(b: bool) | Int(i: int) | Float(x: real) | Str(s: string)

  /** Python truthiness (`bool(v)`). */
  predicate Truthy(v: Value) {
    match v
    case Null => false
    case Bool(b) => b
    case Int(i) => i != 0
    case Float(x) => x != 0.0
    case Str(s) => s != ""
  }

  /** Python's `v == 0`: `False`, `0` and `0.0` compare equal to zero; `None`
      and every string do not. */
  predicate EqualsZero(v: Value) {
    v == Bool(false) || v == Int(0) || v == Float(0.0)
  }

  /** Python's `v in [None, "", 0, "0"]`, the missing-field test of both
      input validators. */
  predicate IsMissingMarker(v: Value) {
    v == Null || v == Str("") || EqualsZero(v) || v == Str("0")
  }

  /** Python's `v or d`: `v` when truthy, otherwise `d`. */
  function OrElse(v: Value, d: Value): (r: Value)
    ensures Truthy(v) ==> r == v
    ensures !Truthy(v) ==> r == d
  {
    if Truthy(v) then v else d
  }

  /** `dict.get(key, default)`. */
  function GetOr(m: map<string, Value>, key: string, default: Value): (r: Value)
    ensures key in m ==> r == m[key]
    ensures key !in m ==> r == default
  {
    if key in m then m[key] else default
  }

  /** `dict.get(key)` on a request body: a missing key reads as `None`. */
  function Lookup(m: map<string, Value>, key: string): Value
  {
    if key in m then m[key] else Null
  }

  /** Python's `float(v)`; None where Python raises (on `None` and on strings
      that are not float literals). */
  function FloatOf(v: Value): (r: Option<real>)
    ensures v.Int? ==> r == Some(v.i as real)
    ensures v.Float? ==> r == Some(v.x)
    ensures v.Null? ==> r.None?
  {
    match v
    case Null => None
    case Bool(b) => Some(if b then 1.0 else 0.0)
    case Int(i) => Some(i as real)
    case Float(x) => Some(x)
    case Str(s) => ParseDecimal(s)
  }

  /** Python's `int(v)`; None where Python raises. */
  function IntOf(v: Value): (r: Option<int>)
    ensures v.Int? ==> r == Some(v.i)
    ensures v.Null? ==> r.None?
    ensures v.Str? && r.Some? ==> HasDigit(v.s)
  {
    match v
    case Null => None
    case Bool(b) => Some(if b then 1 else 0)
    case Int(i) => Some(i)
    case Float(x) => Some(Trunc(x))
    case Str(s) => ParseIntLiteral(s)
  }

  /** Python's `int(float(v))`; None where Python raises. */
  function IntOfFloat(v: Value): (r: Option<int>)
    ensures v.Int? ==> r == Some(v.i)
    ensures v.Null? ==> r.None?
  {
    match FloatOf(v)
    case None => None
    case Some(x) => Some(Trunc(x))
  }
}
