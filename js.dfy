/**
 * The few JavaScript value semantics the modelled code relies on: numbers
 * (restricted to integers and NaN), truthiness, `typeof`, and time values
 * as `Date` stores them.
 */
module Js {
  import opened Wrappers
  import Text

  /** A JavaScript number: an integer or NaN (fractions and infinities are not modelled). */
  datatype Number = Finite(n: int) | NaN

  /** A JavaScript value, as far as the modelled code tells values apart. */
  datatype Value =
    | Undefined
    | Null
    | Bool(b: bool)
    | Num(x: Number)
    | Str(s: string)
    | Obj(ref: nat)
    | Func(ref: nat)
    | DateObj(time: Number)

  predicate Nullish(v: Value)
  {
    v.Undefined? || v.Null?
  }

  /** `!!v`. */
  predicate Truthy(v: Value)
  {
    match v
    case Undefined => false
    case Null => false
    case Bool(b) => b
    case Num(x) => x.Finite? && x.n != 0
    case Str(s) => s != ""
    case _ => true
  }

  /**
   * `a === b`. Dates carry no identity in this model, so two of them are
   * never taken to be the same object; NaN equals nothing.
   */
  predicate StrictEquals(a: Value, b: Value)
  {
    a == b && !(a.Num? && a.x.NaN?) && !a.DateObj?
  }

  /** `typeof v`. */
  function TypeOf(v: Value): (t: string)
    ensures t in {"undefined", "object", "boolean", "number", "string", "function"}
  {
    match v
    case Undefined => "undefined"
    case Null => "object"
    case Bool(_) => "boolean"
    case Num(_) => "number"
    case Str(_) => "string"
    case Obj(_) => "object"
    case Func(_) => "function"
    case DateObj(_) => "object"
  }

  /** The largest magnitude of a `Date` time value, in milliseconds. */
  const MAX_TIME: int := 8_640_000_000_000_000

  /** A time value a `Date` can hold: NaN (an invalid date) or a clipped millisecond count. */
  predicate IsTime(t: Number)
  {
    t.NaN? || -MAX_TIME <= t.n <= MAX_TIME
  }

  type Time = t: Number | IsTime(t) witness NaN

  /** `new Date(x)` for an integer `x`: out-of-range times become an invalid date. */
  function TimeClip(x: int): (t: Time)
    ensures t.Finite? <==> -MAX_TIME <= x <= MAX_TIME
    ensures t.Finite? ==> t.n == x
  {
    if -MAX_TIME <= x <= MAX_TIME then Finite(x) else NaN
  }

  /** `x + ''`. */
  function NumberToString(x: Number): string
  {
    match x
    case Finite(n) => Text.IntToString(n)
    case NaN => "NaN"
  }

  /**
   * The host behaviour value conversions rely on and this model leaves abstract:
   * `Date` parsing of a string, and the text of a date or of a function.
   */
  datatype Host = Host(parseDate: string -> Time, dateText: Number -> string, funcText: nat -> string)

  /** `String(v)`. */
  function ToText(v: Value, host: Host): string
  {
    match v
    case Undefined => "undefined"
    case Null => "null"
    case Bool(b) => if b then "true" else "false"
    case Num(x) => NumberToString(x)
    case Str(s) => s
    case Obj(_) => "[object Object]"
    case Func(f) => host.funcText(f)
    case DateObj(t) => host.dateText(t)
  }

  /** `parseFloat(s)`, restricted to integer literals: no digits gives NaN. */
  function ParseFloat(s: string): Number
  {
    match Text.ParseInt(s)
    case Some(n) => Finite(n)
    case None => NaN
  }

  lemma NumberStringRoundTrip(x: Number)
    ensures ParseFloat(NumberToString(x)) == x
  {
    if x.Finite? {
      Text.IntStringRoundTrip(x.n);
    } else {
      assert !Text.IsDigit('N') && !Text.IsDigit('a');
    }
  }

  /** The text of a number holds only digits, `-` and the letters of `NaN`. */
  lemma NumberStringChars(x: Number, k: nat)
    requires k < |NumberToString(x)|
    ensures var c := NumberToString(x)[k]; Text.IsDigit(c) || c == '-' || c == 'N' || c == 'a'
  {
    if x.Finite? {
      Text.IntStringChars(x.n, k);
    }
  }
}
