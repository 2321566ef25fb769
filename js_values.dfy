/** JavaScript values as they come out of the CSV parser with dynamic typing
    switched on, and the few JavaScript built-ins the dashboard applies to them.

    Numbers are modelled as mathematical reals: NaN, the infinities and -0 are
    not representable, and every numeric field the parser produces is finite. */
module JsValues {
  import opened Wrappers

  /** One cell of a parsed row: `undefined`, `null`, a boolean, a number or a string. */
  datatype Value =
    | Absent
    | Null
    | Bool(b: bool)
    | Num(x: real)
    | Str(s: string)

  /** JavaScript truthiness: `undefined`, `null`, `false`, `0` and `""` are falsy. */
  predicate Truthy(v: Value)
    ensures Truthy(v) <==> v !in {Absent, Null, Bool(false), Num(0.0), Str("")}
  {
    match v
    case Absent => false
    case Null => false
    case Bool(b) => b
    case Num(x) => x != 0.0
    case Str(s) => s != ""
  }

  /** The built-ins whose internals are foreign to the model, as total functions:
      - `dateText(s)`: `Date.parse(s)`, the time value in epoch milliseconds, or None for NaN;
      - `floatText(s)`: `parseFloat(s)`, or None for NaN;
      - `numberText(x)`: `Number.prototype.toString` of the number `x`. */
  datatype Host = Host(
    dateText: string -> Option<int>,
    floatText: string -> Option<real>,
    numberText: real -> string)

  /** The largest time value a JavaScript Date can hold, in milliseconds. */
  const MaxTimeValue: real := 8640000000000000.0

  /** Truncation toward zero (ToIntegerOrInfinity on a finite number). */
  function Trunc(x: real): (n: int)
    ensures 0.0 <= x ==> 0 <= n && n as real <= x < n as real + 1.0
    ensures x < 0.0 ==> n <= 0 && n as real - 1.0 < x <= n as real
  {
    if 0.0 <= x then x.Floor else -((-x).Floor)
  }

  /** TimeClip: a number outside the representable range is an invalid date (NaN);
      any other number is truncated to whole milliseconds. */
  function TimeClip(t: real): (r: Option<int>)
    ensures r.Some? <==> -MaxTimeValue <= t <= MaxTimeValue
    ensures r.Some? ==> -MaxTimeValue <= r.value as real <= MaxTimeValue
  {
    if t < -MaxTimeValue || MaxTimeValue < t then None else Some(Trunc(t))
  }

  /** `new Date(v).getTime()` for a cell `v`, with None standing for NaN.
      A string is parsed as a date; every other value is converted with ToNumber
      (`undefined` to NaN, `null` to 0, booleans to 0 or 1) and then time-clipped. */
  function ParseDate(host: Host, v: Value): (r: Option<int>)
    ensures v.Absent? ==> r.None?
    ensures v.Null? || v.Bool? ==> r.Some? && 0 <= r.value <= 1
    ensures v == Null || v == Bool(false) ==> r == Some(0)
    ensures v == Bool(true) ==> r == Some(1)
    ensures v.Num? ==> (r.Some? <==> -MaxTimeValue <= v.x <= MaxTimeValue)
  {
    match v
    case Absent => None
    case Null => TimeClip(0.0)
    case Bool(b) => TimeClip(if b then 1.0 else 0.0)
    case Num(x) => TimeClip(x)
    case Str(s) => host.dateText(s)
  }

  /** `parseFloat(v)` for a cell `v`, with None standing for NaN. A finite number
      converts to a string that parses back to itself; "true", "false", "null" and
      "undefined" do not start a number. */
  function ParseAmount(host: Host, v: Value): (r: Option<real>)
    ensures !v.Str? ==> (r.Some? <==> v.Num?)
    ensures v.Num? ==> r == Some(v.x)
  {
    match v
    case Num(x) => Some(x)
    case Str(s) => host.floatText(s)
    case _ => None
  }

  /** ToString(v), the key JavaScript's default array sort compares. */
  function ToText(host: Host, v: Value): (text: string)
    ensures v.Str? ==> text == v.s
    ensures !v.Num? && !v.Str? ==> text in {"undefined", "null", "true", "false"}
    ensures v.Absent? ==> text == "undefined"
    ensures v.Null? ==> text == "null"
    ensures v == Bool(true) ==> text == "true"
    ensures v == Bool(false) ==> text == "false"
  {
    match v
    case Absent => "undefined"
    case Null => "null"
    case Bool(b) => if b then "true" else "false"
    case Num(x) => host.numberText(x)
    case Str(s) => s
  }
}

/** The order JavaScript uses to compare two strings: lexicographic on code
    units. Characters stand for UTF-16 code units here. */
module StringOrder {

  /** `a` sorts no later than `b`. */
  predicate LexLe(a: string, b: string)
  {
    a == [] || (b != [] && (a[0] < b[0] || (a[0] == b[0] && LexLe(a[1..], b[1..]))))
  }

  lemma {:induction false} LexLeReflexive(a: string)
    ensures LexLe(a, a)
  {
    if a != [] {
      LexLeReflexive(a[1..]);
    }
  }

  lemma {:induction false} LexLeTotal(a: string, b: string)
    ensures LexLe(a, b) || LexLe(b, a)
  {
    if a != [] && b != [] && a[0] == b[0] {
      LexLeTotal(a[1..], b[1..]);
    }
  }

  lemma {:induction false} LexLeAntisymmetric(a: string, b: string)
    requires LexLe(a, b) && LexLe(b, a)
    ensures a == b
  {
    if a != [] && b != [] {
      LexLeAntisymmetric(a[1..], b[1..]);
      assert a == [a[0]] + a[1..];
      assert b == [b[0]] + b[1..];
    }
  }

  lemma {:induction false} LexLeTransitive(a: string, b: string, c: string)
    requires LexLe(a, b) && LexLe(b, c)
    ensures LexLe(a, c)
  {
    if a != [] && b != [] && c != [] && a[0] == b[0] && b[0] == c[0] {
      LexLeTransitive(a[1..], b[1..], c[1..]);
    }
  }
}
