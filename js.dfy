/**
 * The few JavaScript value semantics the model needs: IEEE doubles reduced to
 * "a finite real, NaN or an infinity", truthiness, and the `Number(...)` conversion.
 */
module Js {

  import opened Wrappers

  /** A JavaScript number. Finite doubles are modelled as exact reals. */
  datatype Num = Finite(r: real) | NaN | PosInfinity | NegInfinity

  /**
   * A JavaScript value as far as the modelled helpers look at it. An object
   * is carried with the primitive it converts to under the number hint
   * (`valueOf`, else `toString`): an array's joined text, a date's time value.
   */
  datatype Value = Undefined | Null | Bool(b: bool) | Number(n: Num) | Str(s: string) | Object(primitive: Value)

  /** `Number.isFinite(n)`. */
  predicate IsFinite(n: Num) { n.Finite? }

  /** Truthiness of a number: 0 and NaN are falsy. */
  predicate NumTruthy(n: Num)
  {
    match n
    case Finite(r) => r != 0.0
    case NaN => false
    case _ => true
  }

  /** Truthiness of an optional number, where an absent field is `undefined`. */
  predicate OptNumTruthy(n: Option<Num>)
  {
    n.Some? && NumTruthy(n.value)
  }

  /** Truthiness of an optional string: `undefined`, `null` and `''` are falsy. */
  predicate OptStrTruthy(s: Option<string>)
  {
    s.Some? && s.value != ""
  }

  /** Truthiness: `undefined`, `null`, `false`, 0, NaN and `''` are falsy. */
  predicate Truthy(v: Value)
  {
    match v
    case Undefined => false
    case Null => false
    case Bool(b) => b
    case Number(n) => NumTruthy(n)
    case Str(s) => s != ""
    case Object(_) => true
  }

  /** `a || b`: the first operand when it is truthy, otherwise the second. */
  function Or(a: Value, b: Value): (r: Value)
    ensures Truthy(r) <==> Truthy(a) || Truthy(b)
  {
    if Truthy(a) then a else b
  }

  /** `n / d` for a positive finite divisor: non-finite numerators stay non-finite. */
  function DivideBy(n: Num, d: real): (r: Num)
    requires d > 0.0
    ensures IsFinite(r) <==> IsFinite(n)
  {
    match n
    case Finite(x) => Finite(x / d)
    case NaN => NaN
    case PosInfinity => PosInfinity
    case NegInfinity => NegInfinity
  }

  /**
   * How `array.join(sep)` writes one element: `null` and `undefined` as
   * nothing, strings as themselves, booleans as `true`/`false`; numbers and
   * objects by their `String(...)` form, given as the parameter `show`.
   */
  function JoinText(v: Value, show: Value -> string): (r: string)
    ensures v.Undefined? || v.Null? ==> r == ""
    ensures v.Str? ==> r == v.s
  {
    match v
    case Undefined => ""
    case Null => ""
    case Bool(b) => if b then "true" else "false"
    case Str(s) => s
    case _ => show(v)
  }

  /** `a || b` over optional strings. */
  function OrStr(a: Option<string>, b: Option<string>): (r: Option<string>)
    ensures OptStrTruthy(a) ==> r == a
    ensures !OptStrTruthy(a) ==> r == b
  {
    if OptStrTruthy(a) then a else b
  }

  /**
   * `Number(v)`. The conversion of a string (`Number("12")`) follows a grammar
   * of its own; it is given as the parameter `ofString`. An object converts
   * through its primitive, so `Number([7])` reads the text `7`.
   */
  function ToNumber(v: Value, ofString: string -> Num): (r: Num)
    ensures v.Undefined? ==> r == NaN
    ensures v.Object? ==> r == ToNumber(v.primitive, ofString)
    ensures v.Null? ==> r == Finite(0.0)
    ensures v.Number? ==> r == v.n
    ensures v.Bool? ==> r == Finite(if v.b then 1.0 else 0.0)
  {
    match v
    case Undefined => NaN
    case Null => Finite(0.0)
    case Bool(b) => Finite(if b then 1.0 else 0.0)
    case Number(n) => n
    case Str(s) => ofString(s)
    case Object(p) => ToNumber(p, ofString)
  }


  // ---------------------------------------------------------------- Array.prototype.filter

  /** `xs.filter(keep)`: the elements that pass the test, in their order. */
  function Filter<T>(xs: seq<T>, keep: T -> bool): seq<T>
  {
    if xs == [] then []
    else Filter(xs[..|xs| - 1], keep) + (if keep(xs[|xs| - 1]) then [xs[|xs| - 1]] else [])
  }

  /** Filtering distributes over concatenation, so the order of the input is kept. */
  lemma {:induction false} FilterConcat<T>(a: seq<T>, b: seq<T>, keep: T -> bool)
    ensures Filter(a + b, keep) == Filter(a, keep) + Filter(b, keep)
    decreases |b|
  {
    if b == [] {
      assert a + b == a;
    } else {
      var init, last := b[..|b| - 1], b[|b| - 1];
      var ab := a + b;
      assert ab[..|ab| - 1] == a + init && ab[|ab| - 1] == last;
      FilterConcat(a, init, keep);
    }
  }

  /** An element is kept iff it is in the input and passes the test; nothing is added. */
  lemma {:induction false} FilterMembers<T>(xs: seq<T>, keep: T -> bool)
    ensures |Filter(xs, keep)| <= |xs|
    ensures forall x :: x in Filter(xs, keep) <==> x in xs && keep(x)
  {
    if xs != [] {
      var init := xs[..|xs| - 1];
      FilterMembers(init, keep);
      assert xs == init + [xs[|xs| - 1]];
    }
  }

  /** When every element passes, the whole input is kept. */
  lemma {:induction false} FilterKeepsAll<T>(xs: seq<T>, keep: T -> bool)
    requires forall i :: 0 <= i < |xs| ==> keep(xs[i])
    ensures Filter(xs, keep) == xs
  {
    if xs != [] {
      var init := xs[..|xs| - 1];
      FilterKeepsAll(init, keep);
      assert xs == init + [xs[|xs| - 1]];
    }
  }
}
