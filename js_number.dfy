/**
 * JavaScript numbers and the few arithmetic primitives of assets/app.js that
 * behave differently from Dafny's: `Math.round` and the truncating `%`.
 * Values are exact reals; IEEE-754 rounding is not modelled.
 */
module JsNumber {

  /** A JavaScript number: what `Number(value)` reads from an input field. */
  datatype Number = Finite(value: real) | NaN | PosInfinity | NegInfinity
  {
    /** `Number.isFinite` */
    predicate IsFinite() { Finite? }

    /** Truthiness in a boolean context: `0` and `NaN` are falsy, everything else is truthy. */
    function Truthy(): (b: bool)
      ensures b <==> this != Finite(0.0) && this != NaN
    {
      match this
      case Finite(v) => v != 0.0
      case NaN => false
      case _ => true
    }
  }

  function Abs(x: real): (r: real)
    ensures r >= 0.0 && (r == x || r == -x)
  {
    if x < 0.0 then -x else x
  }

  /** `Math.round(x)`: the nearest integer, halves rounded up (towards +Infinity). */
  function Round(x: real): (r: int)
    ensures r as real - 0.5 <= x < r as real + 0.5
  {
    (x + 0.5).Floor
  }

  /** `a % b` on integers for a positive divisor: the remainder takes the sign of `a`. */
  function Rem(a: int, b: int): (r: int)
    requires b > 0
    ensures a >= 0 ==> 0 <= r < b && r == a % b
    ensures a < 0 ==> -b < r <= 0 && r == -((-a) % b)
  {
    if a >= 0 then a % b else -((-a) % b)
  }

  /** `a % b` on a non-negative real and a positive divisor, where truncation is flooring. */
  function RealRem(a: real, b: real): (r: real)
    requires a >= 0.0 && b > 0.0
    ensures 0.0 <= r < b
    ensures ((a - r) / b).Floor as real == (a - r) / b
  {
    var q := (a / b).Floor;
    QuotientBounds(a, b);
    var r := a - b * q as real;
    assert (a - r) / b == q as real;
    r
  }

  /** The floored quotient times the divisor lies within one divisor below the dividend. */
  lemma QuotientBounds(a: real, b: real)
    requires b > 0.0
    ensures b * ((a / b).Floor as real) <= a
    ensures a < b * ((a / b).Floor as real) + b
  {
    var q := (a / b).Floor as real;
    var f := a / b - q;
    assert 0.0 <= f < 1.0;
    assert a - b * q == b * f;
    assert b * q + b - a == b * (1.0 - f);
    assert b * (1.0 - f) > 0.0;
    assert a < b * q + b;
  }

  /** Flooring a non-negative real and then taking its `k`-th part (a minute or an hour of seconds)
      is the same as flooring its `k`-th part. */
  lemma FloorOfPart(x: real, k: int)
    requires x >= 0.0 && (k == 60 || k == 3600)
    ensures (x / k as real).Floor == x.Floor / k
  {
    var n := x.Floor;
    var q, r := n / k, n % k;
    assert n == q * k + r && 0 <= r < k;
    if k == 60 {
      assert (q as real) * 60.0 <= x < (q as real + 1.0) * 60.0;
    } else {
      assert (q as real) * 3600.0 <= x < (q as real + 1.0) * 3600.0;
    }
  }

  /** Flooring the float remainder by a minute or an hour is the integer remainder of the floor. */
  lemma FloorOfRem(x: real, k: int)
    requires x >= 0.0 && (k == 60 || k == 3600)
    ensures RealRem(x, k as real).Floor == x.Floor % k
  {
    var n := x.Floor;
    FloorOfPart(x, k);
    var q := n / k;
    assert RealRem(x, k as real) == x - (q * k) as real;
    assert (x - (q * k) as real).Floor == n - q * k;
  }
}
