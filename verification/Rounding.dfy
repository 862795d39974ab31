/** BigNumber's default rounding: to the nearest, halves away from zero. */
module Rounding {

  function RoundHalfUp(x: real): int {
    if x >= 0.0 then (x + 0.5).Floor else -(-x + 0.5).Floor
  }

  lemma RoundIsNearest(x: real)
    ensures -0.5 <= RoundHalfUp(x) as real - x <= 0.5
  {
  }

  lemma RoundMonotone(x: real, y: real)
    requires x <= y
    ensures RoundHalfUp(x) <= RoundHalfUp(y)
  {
  }

  lemma RoundFixesIntegers(n: int)
    ensures RoundHalfUp(n as real) == n
  {
  }

  const UNITS := 1_000_000_000_000_000_000.0

  /** `decimalPlaces(18)`. */
  function Decimals18(x: real): real {
    RoundHalfUp(x * UNITS) as real / UNITS
  }

  /** A value that already has at most 18 decimal places. */
  predicate OnGrid(x: real) {
    x == (x * UNITS).Floor as real / UNITS
  }

  lemma Decimals18Monotone(x: real, y: real)
    requires x <= y
    ensures Decimals18(x) <= Decimals18(y)
  {
    assert x * UNITS <= y * UNITS;
    RoundMonotone(x * UNITS, y * UNITS);
  }

  lemma Decimals18OnGrid(x: real)
    ensures OnGrid(Decimals18(x))
    ensures OnGrid(x) ==> Decimals18(x) == x
  {
    var n := RoundHalfUp(x * UNITS);
    assert Decimals18(x) * UNITS == n as real;
    if OnGrid(x) {
      RoundFixesIntegers((x * UNITS).Floor);
    }
  }

  lemma Decimals18Sign(x: real)
    ensures x >= 0.0 ==> Decimals18(x) >= 0.0
    ensures Decimals18(1.0) == 1.0 && Decimals18(0.0) == 0.0
  {
    RoundFixesIntegers(1_000_000_000_000_000_000);
    RoundFixesIntegers(0);
    if x >= 0.0 {
      Decimals18Monotone(0.0, x);
    }
  }
}
