/**
 * .NET `Math.Round(x, 1)`: round a double to one decimal place, with the
 * default midpoint rule MidpointRounding.ToEven ("banker's rounding").
 * Values are modelled as exact reals; IEEE representation error is not.
 */
module Rounding {

  /** The number of tenths `r` stands for, when `r` is a whole number of tenths. */
  function Tenths(r: real): int {
    (r * 10.0).Floor
  }

  /** `r` is a whole number of tenths. */
  predicate IsTenths(r: real) {
    Tenths(r) as real == r * 10.0
  }

  /**
   * Math.Round(x, 1): the multiple of 0.1 nearest to `x`; when `x` lies
   * exactly halfway between two of them, the one with an even tenths digit.
   */
  function Round1(x: real): (r: real)
    ensures IsTenths(r)
    ensures -0.05 <= r - x <= 0.05
    ensures (r - x == 0.05 || x - r == 0.05) ==> Tenths(r) % 2 == 0
  {
    var y := x * 10.0;
    var f := y.Floor;
    var frac := y - f as real;
    var n := if frac < 0.5 then f
             else if frac > 0.5 then f + 1
             else if f % 2 == 0 then f
             else f + 1;
    assert (n as real / 10.0) * 10.0 == n as real;
    n as real / 10.0
  }

  /** The contract of Round1 pins its result down: no other value satisfies it. */
  lemma {:induction false} Round1Unique(x: real, r: real)
    requires IsTenths(r)
    requires -0.05 <= r - x <= 0.05
    requires (r - x == 0.05 || x - r == 0.05) ==> Tenths(r) % 2 == 0
    ensures r == Round1(x)
  {
    var q := Round1(x);
    var a, b := Tenths(r), Tenths(q);
    assert a as real == r * 10.0 && b as real == q * 10.0;
    assert -1.0 <= (a - b) as real <= 1.0;
    // two distinct neighbouring tenths within 0.05 of x would both be at
    // the midpoint, and only one of them has an even tenths digit
    assert a == b;
  }

  /** Rounding never reverses the order of two values. */
  lemma {:induction false} Round1Monotone(x: real, y: real)
    requires x <= y
    ensures Round1(x) <= Round1(y)
  {
    var fx, fy := (x * 10.0).Floor, (y * 10.0).Floor;
    assert fx <= fy;
    var rx, ry := Round1(x), Round1(y);
    assert fx as real <= rx * 10.0 <= fx as real + 1.0;
    assert fy as real <= ry * 10.0 <= fy as real + 1.0;
    if fx < fy {
      assert rx * 10.0 <= ry * 10.0;
    } else {
      assert x * 10.0 - fx as real <= y * 10.0 - fy as real;
    }
  }

  /** A value that already is a whole number of tenths is left unchanged. */
  lemma {:induction false} Round1OfTenths(x: real)
    requires IsTenths(x)
    ensures Round1(x) == x
  {
    Round1Unique(x, x);
  }

  /** Rounding keeps a value inside [0, 100]. */
  lemma {:induction false} Round1StaysInRange(x: real)
    requires 0.0 <= x <= 100.0
    ensures 0.0 <= Round1(x) <= 100.0
  {
    Round1OfTenths(0.0);
    Round1OfTenths(100.0);
    Round1Monotone(0.0, x);
    Round1Monotone(x, 100.0);
  }
}
