/**
  * JavaScript values as they reach a route handler (JSON bodies, query and
  * path parameters), JavaScript truthiness, and the conversions the handlers
  * apply before writing a column.
  */
module Js {
  import opened Wrappers

  /** A JavaScript number. Finite values are kept as exact reals; infinities are not modelled. */
  datatype Number = NaN | Fin(r: real)

  /** A JSON value; a body field that is absent reads as `Undefined`. */
  datatype Value =
    | Undefined
    | Null
    | Bool(b: bool)
    | Num(n: Number)
    | Str(s: string)
    | Arr(elems: seq<Value>)
    | Obj(fields: map<string, Value>)

  /** `!!v`: false exactly for undefined, null, false, 0, NaN and "". */
  predicate Truthy(v: Value)
  {
    match v
    case Undefined => false
    case Null => false
    case Bool(b) => b
    case Num(n) => n.Fin? && n.r != 0.0
    case Str(s) => s != ""
    case Arr(_) => true
    case Obj(_) => true
  }

  /** `v == null` (loose equality): true exactly for null and undefined. */
  predicate Nullish(v: Value)
  {
    v.Undefined? || v.Null?
  }

  /** The property read `v[key]`: None when `v` is null or undefined, which throws a TypeError. */
  function Prop(v: Value, key: string): (r: Option<Value>)
    ensures r.None? <==> Nullish(v)
    ensures v.Obj? ==> r == Some(if key in v.fields then v.fields[key] else Undefined)
  {
    match v
    case Undefined => None
    case Null => None
    case Obj(fields) => Some(if key in fields then fields[key] else Undefined)
    case _ => Some(Undefined)
  }

  /** A query-string parameter: absent, or the text Express parsed. */
  type Query = Option<string>

  /** A query parameter passes an `if (param)` test: present and non-empty. */
  predicate Given(q: Query)
  {
    q.Some? && q.value != ""
  }

  /**
    * The conversions the handlers delegate to the JavaScript runtime, left
    * uninterpreted: `Number(v)`; `new Date(v).getTime()` (None for an Invalid
    * Date); for a date-only text `v`, the day number d (days since
    * 1970-01-01) such that `${v}T00:00:00.000Z` is the instant d * 86400000
    * and `${v}T23:59:59.999Z` the instant d * 86400000 + 86399999, None when
    * these texts are Invalid Dates; and `String(v)` for a value that
    * is not already text.
    */
  datatype Runtime = Runtime(
    toNumber: Value -> Number,
    newDate: Value -> Option<int>,
    dayOf: Value -> Option<int>,
    toText: Value -> string)

  /** `String(v)`: text is itself, anything else is converted by the runtime. */
  function String(rt: Runtime, v: Value): (s: string)
    ensures v.Str? ==> s == v.s
  {
    if v.Str? then v.s else rt.toText(v)
  }

  /** JavaScript's `a % b` on integers: the remainder takes the sign of `a` (truncated division). */
  function Rem(a: int, b: int): (r: int)
    requires b > 0
    ensures a >= 0 ==> r == a % b
    ensures a < 0 ==> r == -((-a) % b)
    ensures -b < r < b
  {
    if a >= 0 then a % b else -((-a) % b)
  }

  /** A number used as an integer key or column: None when the database rejects it (NaN or fractional). */
  function IntOf(n: Number): (r: Option<int>)
    ensures r.Some? <==> n.Fin? && n.r == n.r.Floor as real
    ensures r.Some? ==> r.value as real == n.r
  {
    if n.Fin? && n.r == n.r.Floor as real then Some(n.r.Floor) else None
  }

  /** The outcome of writing a JavaScript value to a typed column. */
  datatype Coerced<T> = Accepted(value: T) | Rejected

  /** `v || null` written to a nullable text column; a truthy non-string is rejected by the database. */
  function TextOrNull(v: Value): (c: Coerced<Option<string>>)
    ensures c == Accepted(None) <==> !Truthy(v)
    ensures forall s :: c == Accepted(Some(s)) <==> v == Str(s) && s != ""
    ensures c == Rejected <==> Truthy(v) && !v.Str?
  {
    if !Truthy(v) then Accepted(None)
    else if v.Str? then Accepted(Some(v.s))
    else Rejected
  }

  /** `v != null ? Number(v) : null`. */
  function NumberOrNull(rt: Runtime, v: Value): (r: Option<Number>)
    ensures r.None? <==> Nullish(v)
    ensures r.Some? ==> r.value == rt.toNumber(v)
  {
    if Nullish(v) then None else Some(rt.toNumber(v))
  }

  /** `v` written unconverted to a nullable float column: only null, undefined and numbers are accepted. */
  function FloatColumn(v: Value): (c: Coerced<Option<Number>>)
    ensures c == Accepted(None) <==> Nullish(v)
    ensures forall n :: c == Accepted(Some(n)) <==> v == Num(n)
  {
    match v
    case Undefined => Accepted(None)
    case Null => Accepted(None)
    case Num(n) => Accepted(Some(n))
    case _ => Rejected
  }
}
