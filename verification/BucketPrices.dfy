/** The price grid of the depth chart, and the bucket each price falls into. */
module BucketPrices {
  import opened Wrappers
  import opened Rounding
  import opened NativeOrders

  function Pow(base: real, n: nat): real {
    if n == 0 then 1.0 else base * Pow(base, n - 1)
  }

  function Distribution(n: nat, base: real): (d: seq<real>)
    ensures |d| == n
  {
    seq(n, (i: nat) => Decimals18(Pow(base, i)))
  }

  /** `BigNumber.sum(...xs)`. */
  function SumFirst(xs: seq<real>, n: nat): real
    requires n <= |xs|
  {
    if n == 0 then 0.0 else SumFirst(xs, n - 1) + xs[n - 1]
  }

  function StepSizes(d: seq<real>): (s: seq<real>)
    requires d != [] ==> SumFirst(d, |d|) != 0.0
    ensures |s| == |d|
  {
    seq(|d|, i requires 0 <= i < |d| => d[i] / SumFirst(d, |d|))
  }

  lemma PowNonNegative(base: real, n: nat)
    requires base >= 0.0
    ensures Pow(base, n) >= 0.0
  {
  }

  lemma {:induction false} SumFirstAtLeast(xs: seq<real>, n: nat)
    requires 0 < n <= |xs| && forall i :: 0 <= i < |xs| ==> xs[i] >= 0.0
    ensures SumFirst(xs, n) >= xs[0]
  {
    if n > 1 {
      SumFirstAtLeast(xs, n - 1);
    }
  }

  /** The shares do not cancel out; otherwise the source divides by zero. */
  predicate GridDefined(n: nat, base: real) {
    n > 0 ==> SumFirst(Distribution(n, base), n) != 0.0
  }

  predicate SharesNotNegative(n: nat, base: real) {
    forall i :: 0 <= i < n ==> Distribution(n, base)[i] >= 0.0
  }

  lemma FirstShare(n: nat, base: real)
    requires n > 0
    ensures Distribution(n, base)[0] == 1.0
  {
    Decimals18Sign(1.0);
  }

  lemma ScaledWithin(base: real, p: real) returns (q: real)
    requires base <= 0.0 && -1.0 <= p <= 1.0
    ensures q == base * p && base <= q && q <= -base
  {
    q := base * p;
    assert base * (p - 1.0) >= 0.0;
    assert base * (p + 1.0) <= 0.0;
  }

  lemma {:induction false} TinyPowers(base: real, i: nat)
    requires -1.0 <= base <= 0.0 && i > 0
    ensures base <= Pow(base, i) <= -base
  {
    if i == 1 {
      assert Pow(base, 1) == base * Pow(base, 0);
    } else {
      TinyPowers(base, i - 1);
      var p := Pow(base, i - 1);
      assert -1.0 <= p <= 1.0;
      var q := ScaledWithin(base, p);
    }
  }

  /** No share is negative exactly when the second one is not, that is, when the base does not round below zero. */
  lemma SharesSign(n: nat, base: real)
    ensures SharesNotNegative(n, base) <==> n <= 1 || Decimals18(base) >= 0.0
  {
    if n > 0 { FirstShare(n, base); }
    if n > 1 {
      assert Pow(base, 1) == base * Pow(base, 0);
      assert Distribution(n, base)[1] == Decimals18(base);
      if Decimals18(base) >= 0.0 {
        forall i | 0 <= i < n ensures Distribution(n, base)[i] >= 0.0 {
          if base >= 0.0 {
            PowNonNegative(base, i);
            Decimals18Sign(Pow(base, i));
          } else if i > 0 {
            TinyPowers(base, i);
            Decimals18Monotone(base, Pow(base, i));
          }
        }
      }
    }
  }

  lemma SharesAddUp(n: nat, base: real)
    requires SharesNotNegative(n, base) && n > 0
    ensures SumFirst(Distribution(n, base), n) >= 1.0
  {
    FirstShare(n, base);
    SumFirstAtLeast(Distribution(n, base), n);
  }

  /** A fraction `x` of the way. */
  function Walk(start: real, end: real, x: real): real {
    (end - start) * x + start
  }

  /** Where the i-th step ends, before rounding. */
  function Grid(start: real, end: real, steps: seq<real>, i: nat): real
    requires i < |steps|
  {
    Walk(start, end, SumFirst(steps, i + 1))
  }

  function GetBucketPrices(start: real, end: real, n: nat, base: real): (prices: seq<real>)
    requires GridDefined(n, base)
    ensures |prices| == n + 1 && prices[0] == start
  {
    var steps := StepSizes(Distribution(n, base));
    [start] + seq(n, (i: nat) requires i < |steps| => Decimals18(Grid(start, end, steps, i)))
  }

  lemma {:induction false} StepsShare(d: seq<real>, n: nat)
    requires n <= |d| && d != [] && SumFirst(d, |d|) != 0.0
    ensures SumFirst(StepSizes(d), n) == SumFirst(d, n) / SumFirst(d, |d|)
  {
    var total := SumFirst(d, |d|);
    if n == 0 {
    } else {
      StepsShare(d, n - 1);
      ShareAdds(SumFirst(d, n - 1), d[n - 1], total);
    }
  }

  lemma ShareAdds(x: real, y: real, total: real)
    requires total != 0.0
    ensures x / total + y / total == (x + y) / total
  {
  }

  /** From start to end, as the sell side walks down and the buy side up. */
  predicate Toward(a: real, b: real, side: Side) {
    if side == Sell then a >= b else a <= b
  }

  ghost predicate Ordered(prices: seq<real>, side: Side) {
    forall i, j :: 0 <= i <= j < |prices| ==> Toward(prices[i], prices[j], side)
  }

  lemma WalkToward(start: real, end: real, x: real, y: real, side: Side)
    requires x <= y && Toward(start, end, side)
    ensures Toward(Walk(start, end, x), Walk(start, end, y), side)
  {
    var span := end - start;
    assert span * y - span * x == span * (y - x);
    if side == Sell {
      assert span * (y - x) <= 0.0;
    } else {
      assert span * (y - x) >= 0.0;
    }
  }

  lemma WalkEnds(start: real, end: real)
    ensures Walk(start, end, 0.0) == start && Walk(start, end, 1.0) == end
  {
  }

  lemma RoundedToward(a: real, b: real, side: Side)
    requires Toward(a, b, side)
    ensures Toward(Decimals18(a), Decimals18(b), side)
  {
    if side == Sell {
      Decimals18Monotone(b, a);
    } else {
      Decimals18Monotone(a, b);
    }
  }

  lemma {:induction false} AdjacentOrdered(prices: seq<real>, side: Side, i: nat, j: nat)
    requires i <= j < |prices|
    requires forall k :: 0 <= k < |prices| - 1 ==> Toward(prices[k], prices[k + 1], side)
    ensures Toward(prices[i], prices[j], side)
    decreases j - i
  {
    if i < j {
      AdjacentOrdered(prices, side, i, j - 1);
    }
  }

  lemma StepSizesNonNegative(d: seq<real>, i: nat)
    requires i < |d| && d[i] >= 0.0 && SumFirst(d, |d|) > 0.0
    ensures StepSizes(d)[i] >= 0.0
  {
  }

  /** A start on the grid is its own rounding, so every price is a rounded point of the walk. */
  lemma PriceAt(start: real, end: real, n: nat, base: real, k: nat)
    requires GridDefined(n, base) && OnGrid(start) && k <= n
    ensures GetBucketPrices(start, end, n, base)[k]
         == Decimals18(Walk(start, end, SumFirst(StepSizes(Distribution(n, base)), k)))
  {
    if k == 0 {
      WalkEnds(start, end);
      Decimals18OnGrid(start);
    }
  }

  /** The powers of the base, each rounded, are the shares the walk is cut into. */
  lemma {:induction false} PowersAre(base: real, powers: seq<real>, i: nat)
    requires i < |powers| && powers[0] == 1.0
    requires forall j :: 0 < j < |powers| ==> powers[j] == base * powers[j - 1]
    ensures Pow(base, i) == powers[i]
  {
    if i == 0 {
    } else {
      PowersAre(base, powers, i - 1);
      assert powers[i] == base * powers[i - 1];
      assert Pow(base, i) == base * Pow(base, i - 1);
    }
  }

  /** Whatever list holds the powers, the distribution holds their roundings. */
  lemma DistributionExactly(n: nat, base: real, powers: seq<real>)
    requires |powers| == n && (n > 0 ==> powers[0] == 1.0)
    requires forall i :: 0 < i < n ==> powers[i] == base * powers[i - 1]
    ensures |Distribution(n, base)| == n
    ensures forall i :: 0 <= i < n ==> Distribution(n, base)[i] == Decimals18(powers[i])
  {
    forall i | 0 <= i < n ensures Distribution(n, base)[i] == Decimals18(powers[i]) {
      PowersAre(base, powers, i);
    }
  }

  predicate IsFraction(x: real, part: real, total: real) {
    total != 0.0 && x * total == part
  }

  lemma FractionIs(x: real, part: real, total: real)
    requires IsFraction(x, part, total)
    ensures part / total == x
  {
  }

  /** A point `x` of the way from start to end, to 18 decimal places. */
  predicate IsPoint(price: real, start: real, end: real, x: real) {
    price == Decimals18(start + (end - start) * x)
  }

  lemma WalkIsPoint(start: real, end: real, x: real)
    ensures IsPoint(Decimals18(Walk(start, end, x)), start, end, x)
  {
    assert Walk(start, end, x) == start + (end - start) * x;
  }

  /** Price `k` lies the fraction of the way to the end that the first `k` shares are of all of them. */
  lemma GridExactly(start: real, end: real, n: nat, base: real, k: nat, x: real)
    requires GridDefined(n, base) && OnGrid(start) && k <= n && n > 0
    requires IsFraction(x, SumFirst(Distribution(n, base), k), SumFirst(Distribution(n, base), n))
    ensures IsPoint(GetBucketPrices(start, end, n, base)[k], start, end, x)
  {
    PriceAt(start, end, n, base, k);
    StepsShare(Distribution(n, base), k);
    FractionIs(x, SumFirst(Distribution(n, base), k), SumFirst(Distribution(n, base), n));
    WalkIsPoint(start, end, x);
  }

  lemma PricesAdjacent(start: real, end: real, n: nat, base: real, k: nat, side: Side)
    requires SharesNotNegative(n, base) && GridDefined(n, base) && OnGrid(start) && Toward(start, end, side) && k < n
    ensures Toward(GetBucketPrices(start, end, n, base)[k], GetBucketPrices(start, end, n, base)[k + 1], side)
  {
    var d := Distribution(n, base);
    SharesAddUp(n, base);
    StepSizesNonNegative(d, k);
    var steps := StepSizes(d);
    var x, y := SumFirst(steps, k), SumFirst(steps, k + 1);
    WalkToward(start, end, x, y, side);
    RoundedToward(Walk(start, end, x), Walk(start, end, y), side);
    PriceAt(start, end, n, base, k);
    PriceAt(start, end, n, base, k + 1);
  }

  lemma Whole(total: real)
    requires total != 0.0
    ensures total / total == 1.0
  {
  }

  /** The grid has one more entry than steps, starts at the start price and ends at the rounded limit. */
  lemma GridEnds(start: real, end: real, n: nat, base: real)
    requires GridDefined(n, base)
    ensures |GetBucketPrices(start, end, n, base)| == n + 1
    ensures GetBucketPrices(start, end, n, base)[0] == start
    ensures n > 0 ==> GetBucketPrices(start, end, n, base)[n] == Decimals18(end)
  {
    if n > 0 {
      var steps := StepSizes(Distribution(n, base));
      StepsShare(Distribution(n, base), n);
      Whole(SumFirst(Distribution(n, base), n));
      WalkEnds(start, end);
    }
  }

  /** With shares that are not negative the grid never turns back. */
  lemma GridOrdered(start: real, end: real, n: nat, base: real, side: Side)
    requires SharesNotNegative(n, base) && GridDefined(n, base) && OnGrid(start) && Toward(start, end, side)
    ensures Ordered(GetBucketPrices(start, end, n, base), side)
  {
    var prices := GetBucketPrices(start, end, n, base);
    forall k | 0 <= k < |prices| - 1 ensures Toward(prices[k], prices[k + 1], side) {
      PricesAdjacent(start, end, n, base, k, side);
    }
    forall i, j | 0 <= i <= j < |prices| ensures Toward(prices[i], prices[j], side) {
      AdjacentOrdered(prices, side, i, j);
    }
  }

  // ---- when it turns back ------------------------------------------------------------------

  /** The worst price a chart still shows. */
  function Limit(best: real, side: Side, slippage: real): real {
    if side == Sell then best * ((100.0 - slippage) / 100.0) else best * ((100.0 + slippage) / 100.0)
  }

  lemma LimitSpan(best: real, side: Side, slippage: real)
    ensures Limit(best, side, slippage) - best
         == if side == Sell then -(best * (slippage / 100.0)) else best * (slippage / 100.0)
  {
    var x := slippage / 100.0;
    assert (100.0 - slippage) / 100.0 == 1.0 - x && (100.0 + slippage) / 100.0 == 1.0 + x;
    assert best * (1.0 - x) == best - best * x && best * (1.0 + x) == best + best * x;
  }

  lemma LimitToward(best: real, side: Side, slippage: real)
    requires best > 0.0 && slippage >= 0.0
    ensures Toward(best, Limit(best, side, slippage), side)
  {
    LimitSpan(best, side, slippage);
    assert best * (slippage / 100.0) >= 0.0;
  }

  /** A move of at least two in the wrong direction. */
  predicate FarBack(move: real, side: Side) {
    if side == Sell then move >= 2.0 else move <= -2.0
  }

  lemma WrongWay(from: real, to: real, side: Side)
    requires FarBack(to - from, side)
    ensures !Toward(Decimals18(from), Decimals18(to), side)
  {
    RoundIsNearest(from * UNITS);
    RoundIsNearest(to * UNITS);
    if side == Sell {
      assert to * UNITS >= from * UNITS + 2.0 * UNITS;
    } else {
      assert to * UNITS <= from * UNITS - 2.0 * UNITS;
    }
  }

  /** How far one step of the walk goes. */
  function Move(start: real, end: real, step: real): real {
    (end - start) * step
  }

  lemma WalkStep(start: real, end: real, x: real, step: real)
    ensures Walk(start, end, x + step) == Walk(start, end, x) + Move(start, end, step)
  {
  }

  lemma StepShows(start: real, end: real, steps: seq<real>, k: nat, side: Side)
    requires k < |steps| && FarBack(Move(start, end, steps[k]), side)
    ensures !Toward(Decimals18(Walk(start, end, SumFirst(steps, k))),
                    Decimals18(Walk(start, end, SumFirst(steps, k + 1))), side)
  {
    WalkStep(start, end, SumFirst(steps, k), steps[k]);
    WrongWay(Walk(start, end, SumFirst(steps, k)), Walk(start, end, SumFirst(steps, k + 1)), side);
  }

  lemma TurnsBackAt(start: real, end: real, n: nat, base: real, k: nat, side: Side)
    requires GridDefined(n, base) && k < n && OnGrid(start)
    requires FarBack(Move(start, end, StepSizes(Distribution(n, base))[k]), side)
    ensures !Ordered(GetBucketPrices(start, end, n, base), side)
  {
    var prices := GetBucketPrices(start, end, n, base);
    StepShows(start, end, StepSizes(Distribution(n, base)), k, side);
    PriceAt(start, end, n, base, k);
    PriceAt(start, end, n, base, k + 1);
    assert !Toward(prices[k], prices[k + 1], side);
  }

  lemma PullingStep(n: nat, base: real) returns (k: nat)
    requires n > 1 && GridDefined(n, base) && Decimals18(base) < 0.0
    ensures k < n && StepSizes(Distribution(n, base))[k] < 0.0
  {
    var d := Distribution(n, base);
    FirstShare(n, base);
    assert Pow(base, 1) == base * Pow(base, 0);
    assert d[1] == Decimals18(base);
    k := if SumFirst(d, n) < 0.0 then 0 else 1;
    NegativeShare(d[k], SumFirst(d, n));
  }

  lemma NegativeShare(x: real, total: real)
    requires total != 0.0 && x != 0.0 && (x < 0.0 <==> total > 0.0)
    ensures x / total < 0.0
  {
  }

  lemma WholeOnGrid(m: int)
    ensures OnGrid(m as real)
  {
    assert m as real * UNITS == (m * 1_000_000_000_000_000_000) as real;
  }

  /** At the given rate the price comes to at least two. */
  predicate Covers(best: real, rate: real) {
    best * rate >= 2.0
  }

  lemma LongEnough(best: real, rate: real)
    requires rate > 0.0 && best >= 2.0 / rate
    ensures Covers(best, rate)
  {
    var least := 2.0 / rate;
    assert least * rate == 2.0;
    assert (best - least) * rate >= 0.0;
    assert (best - least) * rate == best * rate - least * rate;
  }

  /** A whole price that covers the rate. */
  lemma LargeEnough(rate: real) returns (best: real)
    requires rate > 0.0
    ensures best > 0.0 && OnGrid(best) && Covers(best, rate)
  {
    var m: int := (2.0 / rate).Floor + 1;
    best := m as real;
    WholeOnGrid(m);
    LongEnough(best, rate);
  }

  /** The part of the best price by which a step of negative size pulls back. */
  function Pull(slippage: real, step: real): (rate: real)
    ensures (slippage > 0.0 && step < 0.0) || (slippage < 0.0 && step > 0.0) ==> rate > 0.0
  {
    slippage / 100.0 * -step
  }

  lemma SpanTimesStep(best: real, side: Side, slippage: real, step: real)
    requires Covers(best, Pull(slippage, step))
    ensures FarBack(Move(best, Limit(best, side, slippage), step), side)
  {
    LimitSpan(best, side, slippage);
    var x := slippage / 100.0;
    assert best * (x * -step) == -(best * x) * step;
    assert best * x * step == -(-(best * x) * step);
  }

  /** If some share pulls back, some best price gets a grid that turns back on its way to the limit. */
  lemma GridTurnsBack(n: nat, base: real, side: Side, slippage: real) returns (best: real)
    requires n > 1 && GridDefined(n, base) && Decimals18(base) < 0.0 && slippage > 0.0
    ensures best > 0.0 && OnGrid(best)
    ensures !Ordered(GetBucketPrices(best, Limit(best, side, slippage), n, base), side)
  {
    var k := PullingStep(n, base);
    var step := StepSizes(Distribution(n, base))[k];
    best := LargeEnough(Pull(slippage, step));
    SpanTimesStep(best, side, slippage, step);
    TurnsBackAt(best, Limit(best, side, slippage), n, base, k, side);
  }

  /** Without slippage there is nowhere to turn. */
  lemma GridFlat(best: real, n: nat, base: real, side: Side)
    requires GridDefined(n, base) && OnGrid(best)
    ensures Ordered(GetBucketPrices(best, Limit(best, side, 0.0), n, base), side)
  {
    LimitSpan(best, side, 0.0);
    var prices := GetBucketPrices(best, Limit(best, side, 0.0), n, base);
    Decimals18OnGrid(best);
    forall k | 0 <= k < |prices| ensures prices[k] == best {
      PriceAt(best, Limit(best, side, 0.0), n, base, k);
    }
  }

  /** With negative slippage the limit lies on the wrong side of the best price. */
  lemma LimitBehindBest(n: nat, base: real, side: Side, slippage: real) returns (best: real)
    requires n > 0 && GridDefined(n, base) && slippage < 0.0
    ensures best > 0.0 && OnGrid(best)
    ensures !Ordered(GetBucketPrices(best, Limit(best, side, slippage), n, base), side)
  {
    assert Pull(slippage, 1.0) > 0.0;
    best := LargeEnough(Pull(slippage, 1.0));
    var end := Limit(best, side, slippage);
    SpanTimesStep(best, side, slippage, 1.0);
    assert Move(best, end, 1.0) == end - best;
    WrongWay(best, end, side);
    Decimals18OnGrid(best);
    GridEnds(best, end, n, base);
    var prices := GetBucketPrices(best, end, n, base);
    assert !Toward(prices[0], prices[n], side);
  }

  // ---- prices that are no longer numbers ---------------------------------------------------

  datatype Price = Finite(value: real) | PlusInfinity | MinusInfinity | NotANumber

  function Finites(rs: seq<real>): (prices: seq<Price>)
    ensures |prices| == |rs| && forall i :: 0 <= i < |rs| ==> prices[i] == Finite(rs[i])
  {
    seq(|rs|, i requires 0 <= i < |rs| => Finite(rs[i]))
  }

  function NoNumbers(n: nat): (prices: seq<Price>)
    ensures |prices| == n && forall i :: 0 <= i < n ==> prices[i] == NotANumber
  {
    seq(n, _ => NotANumber)
  }

  /**
   * The grid if the shares cancel out and every step is a division by zero: the first step has
   * infinite size, and from the second one on infinities of both signs are summed.
   */
  function CancelledPrices(start: real, end: real, n: nat): (prices: seq<Price>)
    requires n > 0
    ensures |prices| == n + 1
  {
    var first := if end > start then PlusInfinity else if end < start then MinusInfinity else NotANumber;
    [Finite(start), first] + NoNumbers(n - 1)
  }

  /** Then there is a second share, of the opposite sign. */
  lemma CancelledShares(n: nat, base: real)
    requires !GridDefined(n, base)
    ensures n > 1 && Distribution(n, base)[0] == 1.0 && Distribution(n, base)[1] < 0.0
    ensures !(n <= 1 || Decimals18(base) >= 0.0)
  {
    FirstShare(n, base);
    SharesSign(n, base);
    if SharesNotNegative(n, base) {
      SharesAddUp(n, base);
    }
    assert Pow(base, 1) == base * Pow(base, 0);
  }

  /** The bucket prices for any distribution base. */
  function PricesFor(start: real, end: real, n: nat, base: real): (prices: seq<Price>)
    ensures |prices| == n + 1 && prices[0] == Finite(start)
  {
    if GridDefined(n, base) then Finites(GetBucketPrices(start, end, n, base))
    else CancelledPrices(start, end, n)
  }

  /** Every price is a number, and each is at least as far along as the ones before. */
  ghost predicate RunsToLimit(prices: seq<Price>, side: Side) {
    && (forall i :: 0 <= i < |prices| ==> prices[i].Finite?)
    && (forall i, j :: 0 <= i <= j < |prices| ==> Toward(prices[i].value, prices[j].value, side))
  }

  lemma FinitesRun(rs: seq<real>, side: Side)
    ensures RunsToLimit(Finites(rs), side) <==> Ordered(rs, side)
  {
    if RunsToLimit(Finites(rs), side) {
      forall i, j | 0 <= i <= j < |rs| ensures Toward(rs[i], rs[j], side) {
        assert Toward(Finites(rs)[i].value, Finites(rs)[j].value, side);
      }
    }
  }

  /** What a caller can check about the requested distribution. */
  predicate KeepsDirection(n: nat, base: real, slippage: real) {
    || n == 0
    || (slippage > 0.0 && (n == 1 || Decimals18(base) >= 0.0))
    || (slippage == 0.0 && GridDefined(n, base))
  }

  lemma GridKeepsDirection(best: real, n: nat, base: real, side: Side, slippage: real)
    requires KeepsDirection(n, base, slippage) && best > 0.0 && OnGrid(best)
    ensures RunsToLimit(PricesFor(best, Limit(best, side, slippage), n, base), side)
  {
    var end := Limit(best, side, slippage);
    if n > 0 {
      if !GridDefined(n, base) {
        CancelledShares(n, base);
      }
      if slippage == 0.0 {
        GridFlat(best, n, base, side);
      } else {
        SharesSign(n, base);
        LimitToward(best, side, slippage);
        GridOrdered(best, end, n, base, side);
      }
      FinitesRun(GetBucketPrices(best, end, n, base), side);
    }
  }

  /** A best price whose grid fails, if the condition does. */
  lemma GridFails(n: nat, base: real, side: Side, slippage: real) returns (best: real)
    requires !KeepsDirection(n, base, slippage)
    ensures best > 0.0 && OnGrid(best)
    ensures !RunsToLimit(PricesFor(best, Limit(best, side, slippage), n, base), side)
  {
    if !GridDefined(n, base) {
      CancelledShares(n, base);
      WholeOnGrid(1);
      best := 1.0;
      assert !PricesFor(best, Limit(best, side, slippage), n, base)[1].Finite?;
    } else {
      if slippage < 0.0 {
        best := LimitBehindBest(n, base, side, slippage);
      } else {
        best := GridTurnsBack(n, base, side, slippage);
      }
      FinitesRun(GetBucketPrices(best, Limit(best, side, slippage), n, base), side);
    }
  }

  /**
   * Exactly when the grid is made of numbers that run from best price to limit, whatever the best
   * price. The base comes from the request, and nothing in the source checks it.
   */
  lemma GridOrderedExactly(n: nat, base: real, side: Side, slippage: real)
    ensures (forall best :: best > 0.0 && OnGrid(best) ==>
              RunsToLimit(PricesFor(best, Limit(best, side, slippage), n, base), side))
            <==> KeepsDirection(n, base, slippage)
  {
    if KeepsDirection(n, base, slippage) {
      forall best | best > 0.0 && OnGrid(best)
        ensures RunsToLimit(PricesFor(best, Limit(best, side, slippage), n, base), side)
      {
        GridKeepsDirection(best, n, base, side, slippage);
      }
    } else {
      var best := GridFails(n, base, side, slippage);
    }
  }

  // ---- the bucket of a price ---------------------------------------------------------------

  /** Whether a sample's price is good enough for a bucket. */
  predicate Meets(price: real, bucket: Price, side: Side) {
    match bucket
    case Finite(value) => Toward(price, value, side)
    case PlusInfinity => side == Buy
    case MinusInfinity => side == Sell
    case NotANumber => false
  }

  /** `findIndex`. */
  function FirstFrom(price: real, prices: seq<Price>, side: Side, i: nat): Option<nat>
    requires i <= |prices|
    decreases |prices| - i
  {
    if i == |prices| then None
    else if Meets(price, prices[i], side) then Some(i)
    else FirstFrom(price, prices, side, i + 1)
  }

  function BucketId(price: real, prices: seq<Price>, side: Side): Option<nat> {
    FirstFrom(price, prices, side, 0)
  }

  lemma {:induction false} FirstFromFinds(price: real, prices: seq<Price>, side: Side, i: nat)
    requires i <= |prices|
    ensures match FirstFrom(price, prices, side, i)
      case None => forall j :: i <= j < |prices| ==> !Meets(price, prices[j], side)
      case Some(k) => i <= k < |prices| && Meets(price, prices[k], side)
                      && forall j :: i <= j < k ==> !Meets(price, prices[j], side)
    decreases |prices| - i
  {
    if i < |prices| && !Meets(price, prices[i], side) {
      FirstFromFinds(price, prices, side, i + 1);
    }
  }

  /**
   * On an ordered grid the bucket found is the only one the price meets without meeting the one
   * before; a price is dropped exactly when it is worse than the last bucket, and lands in bucket 0
   * exactly when it is no worse than the first.
   */
  lemma BucketIdExact(price: real, prices: seq<Price>, side: Side)
    requires prices != [] && RunsToLimit(prices, side)
    ensures BucketId(price, prices, side).None? <==> !Meets(price, prices[|prices| - 1], side)
    ensures BucketId(price, prices, side) == Some(0) <==> Meets(price, prices[0], side)
    ensures forall k :: 0 <= k < |prices| ==>
      (BucketId(price, prices, side) == Some(k) <==>
        Meets(price, prices[k], side) && (k > 0 ==> !Meets(price, prices[k - 1], side)))
  {
    FirstFromFinds(price, prices, side, 0);
    forall i, j | 0 <= i <= j < |prices| && Meets(price, prices[i], side) ensures Meets(price, prices[j], side) {
      assert Toward(prices[i].value, prices[j].value, side);
    }
  }
}
