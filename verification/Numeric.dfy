/** Rounding and decimal digits, with reals in place of float64. */
module Numeric {

  /** math.Round: to the nearest integer, halves away from zero. */
  function Round(x: real): int {
    if x >= 0.0 then (x + 0.5).Floor else -(0.5 - x).Floor
  }

  /** Go's conversion of a float to an integer: toward zero. */
  function Truncate(x: real): int {
    if x >= 0.0 then x.Floor else -(-x).Floor
  }

  function Abs(x: real): real {
    if x >= 0.0 then x else -x
  }

  function Pow10(d: nat): (p: real)
    ensures p >= 1.0
  {
    if d == 0 then 1.0 else 10.0 * Pow10(d - 1)
  }

  lemma ShorterReciprocal(scale: real)
    requires 0.0 < scale < 1.0
    ensures 0 <= (1.0 / (scale * 10.0)).Floor < (1.0 / scale).Floor
  {
  }

  /** ceil(-log10(scale)): the fewest decimal digits d with 10^-d <= scale. */
  function Digits(scale: real): nat
    requires 0.0 < scale
    decreases (1.0 / scale).Floor
  {
    if scale >= 1.0 then 0 else (ShorterReciprocal(scale); 1 + Digits(scale * 10.0))
  }

  predicate Reaches(scale: real, p: real) {
    scale * p >= 1.0
  }

  lemma ShiftDigit(scale: real, next: real, p: real)
    requires next == scale * 10.0
    ensures Reaches(scale, 10.0 * p) <==> Reaches(next, p)
  {
  }

  /** Digits counts the fewest decimal digits: with them the scaled unit reaches 1, with one fewer it does not. */
  lemma {:induction false} DigitsLeast(scale: real)
    requires 0.0 < scale < 1.0
    ensures Digits(scale) >= 1
    ensures Reaches(scale, Pow10(Digits(scale)))
    ensures !Reaches(scale, Pow10(Digits(scale) - 1))
    decreases (1.0 / scale).Floor
  {
    var next := scale * 10.0;
    ShorterReciprocal(scale);
    var d := Digits(next);
    assert Digits(scale) == d + 1;
    assert Pow10(d + 1) == 10.0 * Pow10(d);
    if next >= 1.0 {
      assert Pow10(0) == 1.0;
    } else {
      DigitsLeast(next);
      assert Pow10(d) == 10.0 * Pow10(d - 1);
      ShiftDigit(scale, next, Pow10(d - 1));
    }
    ShiftDigit(scale, next, Pow10(d));
  }

  lemma {:induction false} DigitsOfPower(d: nat)
    ensures 0.0 < 1.0 / Pow10(d) && Digits(1.0 / Pow10(d)) == d
    ensures 1.0 / Pow10(d) * Pow10(d) == 1.0
  {
    if d == 0 {
    } else {
      DigitsOfPower(d - 1);
      var p := Pow10(d - 1);
      assert 1.0 / (10.0 * p) * 10.0 == 1.0 / p;
      assert 1.0 / Pow10(d) < 1.0;
    }
  }

  lemma RoundOfInteger(k: int)
    ensures Round(k as real) == k
  {
  }

  lemma RoundError(x: real)
    ensures Abs(Round(x) as real - x) <= 0.5
  {
  }

  lemma RoundMonotone(x: real, y: real)
    requires x <= y
    ensures Round(x) <= Round(y)
  {
  }

  /** Halves are rounded away from zero. */
  lemma RoundHalves(k: int)
    requires k >= 0
    ensures Round(k as real + 0.5) == k + 1 && Round(-(k as real) - 0.5) == -1 - k
  {
  }

  /** Truncation drops the fraction, toward zero. */
  lemma TruncateIsTowardZero(x: real)
    ensures 0.0 <= x ==> Truncate(x) as real <= x < Truncate(x) as real + 1.0
    ensures x <= 0.0 ==> x <= Truncate(x) as real < x + 1.0
  {
  }

  /** The nearest multiple of 1 / factor. */
  function Snap(v: real, factor: real): real
    requires factor > 0.0
  {
    Round(v * factor) as real / factor
  }

  /** The nearest whole number of scale units. */
  function UnitsOf(v: real, scale: real): int
    requires scale != 0.0
  {
    Round(v / scale)
  }

  function Multiple(k: int, scale: real): real {
    k as real * scale
  }

  lemma ScaleMonotone(a: real, b: real, s: real)
    requires s > 0.0 && a <= b
    ensures a * s <= b * s && a / s <= b / s
  {
  }

  lemma UnitsError(v: real, s: real)
    requires s > 0.0
    ensures Abs(Multiple(UnitsOf(v, s), s) - v) <= s / 2.0
  {
    var x := v / s;
    RoundError(x);
    var n := Round(x) as real;
    var e := n - x;
    ScaleMonotone(e, 0.5, s);
    ScaleMonotone(-0.5, e, s);
    Differ(n, x, s);
    assert x * s == v;
  }

  lemma Differ(n: real, x: real, s: real)
    ensures (n - x) * s == n * s - x * s
  {
  }

  lemma UnitsMonotone(v: real, w: real, s: real)
    requires s > 0.0 && v <= w
    ensures UnitsOf(v, s) <= UnitsOf(w, s)
  {
    ScaleMonotone(v, w, s);
    RoundMonotone(v / s, w / s);
  }

  lemma MultipleMonotone(j: int, k: int, s: real)
    requires s > 0.0 && j <= k
    ensures Multiple(j, s) <= Multiple(k, s)
  {
  }

  lemma UnitsOfMultiple(k: int, s: real)
    requires s > 0.0
    ensures UnitsOf(Multiple(k, s), s) == k
  {
    var r := k as real;
    var x := r * s;
    var y := Multiple(k, s) / s;
    assert Multiple(k, s) == x && x / s == r;
    assert y == r;
    RoundOfInteger(k);
  }
}
