/** What normalising makes of the raw paths of a side, and how its native samples reach the chart. */
module NormalizedDepth {
  import opened Wrappers
  import opened Amounts
  import opened Filtering
  import opened NativeOrders
  import opened BucketPrices
  import opened DepthBuckets
  import opened DepthChart
  import opened MarketDepth

  // ---- which paths are kept ----------------------------------------------------------------

  lemma {:induction false} FindsFirst(raw: seq<seq<DepthSample>>, keep: seq<DepthSample> -> bool, i: nat)
    requires First(raw, keep, i)
    ensures FindPath(raw, keep) == Some(raw[i])
  {
    if i == 0 {
    } else {
      assert !keep(raw[0]);
      forall j | 0 <= j < i - 1 ensures !keep(raw[1..][j]) {
        assert !keep(raw[j + 1]);
      }
      FindsFirst(raw[1..], keep, i - 1);
    }
  }

  lemma PathsKept(raw: seq<seq<DepthSample>>, side: Side) returns (at: seq<nat>)
    ensures Positions(raw, IsSampled, at)
    ensures |Normalize(raw, side)| == |at| + (if FindPath(raw, IsNative).Some? then 1 else 0)
    ensures forall j :: 0 <= j < |at| ==> at[j] < |raw| && Normalize(raw, side)[j] == raw[at[j]]
  {
    if FindPath(raw, IsNative).None? {
      var keep := (p: seq<DepthSample>) => p != [];
      at := FilterPositions(raw, keep);
      forall i | 0 <= i < |raw| ensures keep(raw[i]) == IsSampled(raw[i]) {
        assert !IsNative(raw[i]);
      }
    } else {
      at := FilterPositions(raw, IsSampled);
    }
  }

  /**
   * The depth side begins with every path of the raw side that is not empty and not native,
   * unchanged and in order; if there is a native path, one path more follows, and else nothing.
   */
  lemma SampledPathsStay(raw: seq<seq<DepthSample>>, side: Side) returns (at: seq<nat>)
    ensures forall i, j :: 0 <= i < j < |at| ==> at[i] < at[j]
    ensures forall i :: i in at <==> 0 <= i < |raw| && raw[i] != [] && raw[i][0].source != Native
    ensures |Normalize(raw, side)|
         == |at| + (if exists i :: 0 <= i < |raw| && raw[i] != [] && raw[i][0].source == Native then 1 else 0)
    ensures forall j :: 0 <= j < |at| ==> at[j] < |raw| && Normalize(raw, side)[j] == raw[at[j]]
  {
    at := PathsKept(raw, side);
    if i :| 0 <= i < |raw| && raw[i] != [] && raw[i][0].source == Native {
      assert IsNative(raw[i]);
    }
  }

  // ---- the native samples ------------------------------------------------------------------

  lemma {:induction false} SortedAgain(path: seq<Fill>, side: Side, k: nat)
    ensures multiset(PathAfter(path, side, k)) == multiset(path) && |PathAfter(path, side, k)| == |path|
    ensures Capacity(PathAfter(path, side, k)) == Capacity(path)
    ensures forall price :: Surplus(PathAfter(path, side, k), price, side) == Surplus(path, price, side)
  {
    if k == 0 {
    } else {
      var before := PathAfter(path, side, k - 1);
      SortedAgain(path, side, k - 1);
      SortedPathBestFirst(before, side);
      CapacityOfSortedPath(before, side);
      forall price ensures Surplus(PathAfter(path, side, k), price, side) == Surplus(path, price, side) {
        SurplusOfSortedPath(before, price, side);
      }
    }
  }

  /** No way to spend the amount on the fills beats this one, whatever order the fills are taken in. */
  ghost predicate BestSpending(fills: seq<Fill>, amount: real, side: Side, order: seq<Fill>, xs: seq<real>) {
    && multiset(order) == multiset(fills) && Allocation(order, xs) && Sum(xs) == amount
    && forall ys :: Allocation(fills, ys) && Sum(ys) == amount ==>
         Signed(Value(fills, ys), side) <= Signed(Value(order, xs), side)
  }

  /** Rounding moved the output by at most half a unit for each fill used. */
  ghost predicate Rounded(order: seq<Fill>, xs: seq<real>, output: real)
    requires |xs| == |order|
  {
    Value(order, xs) - Used(xs) as real / 2.0 <= output <= Value(order, xs) + Used(xs) as real / 2.0
  }

  /** Zero if the fills cannot cover the amount, else what the best spending yields, but for rounding. */
  ghost predicate Yields(fills: seq<Fill>, amount: real, side: Side, output: real) {
    if Capacity(fills) < amount then output == 0.0
    else
      exists order, xs :: BestSpending(fills, amount, side, order, xs) && Rounded(order, xs, output)
  }

  lemma GreedyIsBest(fills: seq<Fill>, order: seq<Fill>, amount: real, side: Side)
    requires multiset(order) == multiset(fills) && |order| == |fills| && Capacity(order) == Capacity(fills)
    requires forall price :: Surplus(order, price, side) == Surplus(fills, price, side)
    requires BestFirst(order, side) && 0.0 <= amount <= Capacity(fills)
    ensures BestSpending(fills, amount, side, order, Uses(order, amount))
  {
    UsesAllocate(order, amount);
    UsesCover(order, amount);
    forall ys | Allocation(fills, ys) && Sum(ys) == amount
      ensures Signed(Value(fills, ys), side) <= Signed(Value(order, Uses(order, amount)), side)
    {
      BestFirstBeats(fills, order, side, ys);
    }
  }

  lemma SortedPathIsBest(fills: seq<Fill>, amount: real, side: Side, k: nat)
    requires 0.0 <= amount <= Capacity(fills)
    ensures var order := SortedPath(PathAfter(fills, side, k), side);
      BestSpending(fills, amount, side, order, Uses(order, amount))
  {
    SortedAgain(fills, side, k + 1);
    SortedPathBestFirst(PathAfter(fills, side, k), side);
    GreedyIsBest(fills, PathAfter(fills, side, k + 1), amount, side);
  }

  lemma RoundedUsesYield(fills: seq<Fill>, order: seq<Fill>, amount: real, side: Side)
    requires Capacity(fills) >= amount && BestSpending(fills, amount, side, order, Uses(order, amount))
    ensures Yields(fills, amount, side, RoundedValue(order, Uses(order, amount)) as real)
  {
    RoundingError(order, Uses(order, amount));
  }

  lemma SampleYields(fills: seq<Fill>, amount: real, side: Side, k: nat)
    requires amount >= 0.0
    ensures Yields(fills, amount, side, Sample(PathAfter(fills, side, k), amount, side) as real)
  {
    SortedAgain(fills, side, k);
    SampleCoversExactly(PathAfter(fills, side, k), amount, side);
    if Capacity(fills) >= amount {
      SortedPathIsBest(fills, amount, side, k);
      RoundedUsesYield(fills, SortedPath(PathAfter(fills, side, k), side), amount, side);
    }
  }

  lemma NativeSampleYields(fills: seq<Fill>, amounts: seq<Amount>, side: Side, m: nat)
    requires m < |amounts|
    ensures Yields(fills, amounts[m], side, NativeSamples(fills, amounts, side)[m].output)
  {
    assert NativeSamples(fills, amounts, side)[m] == NativeSample(PathAfter(fills, side, m), amounts[m], side);
    SampleYields(fills, amounts[m], side, m);
  }

  /** The positions at which an amount turns up for the first time, in order. */
  ghost predicate FirstOfEach(xs: seq<Amount>, at: seq<nat>) {
    && (forall i, j :: 0 <= i < j < |at| ==> at[i] < at[j])
    && (forall j :: 0 <= j < |at| ==> at[j] < |xs|)
    && (forall i {:trigger i in at} :: 0 <= i < |xs| ==> (i in at <==> FirstTime(xs, i)))
  }

  ghost predicate FirstTime(xs: seq<Amount>, i: nat)
    requires i < |xs|
  {
    forall j :: 0 <= j < i ==> xs[j] != xs[i]
  }

  lemma FirstOfEachNext(xs: seq<Amount>, before: seq<nat>)
    requires xs != [] && FirstOfEach(xs[..|xs| - 1], before)
    ensures FirstOfEach(xs, if xs[|xs| - 1] in xs[..|xs| - 1] then before else before + [|xs| - 1])
  {
    var n, shorter := |xs| - 1, xs[..|xs| - 1];
    forall i | 0 <= i < n ensures i in before <==> FirstTime(xs, i) {
      assert FirstTime(shorter, i) == FirstTime(xs, i);
    }
    assert FirstTime(xs, n) <==> xs[n] !in shorter;
    assert n !in before;
  }

  lemma {:induction false} UniquePositions(xs: seq<Amount>) returns (at: seq<nat>)
    ensures FirstOfEach(xs, at) && |Unique(xs)| == |at|
    ensures forall j :: 0 <= j < |at| ==> at[j] < |xs| && Unique(xs)[j] == xs[at[j]]
  {
    if xs == [] {
      at := [];
    } else {
      var before := UniquePositions(xs[..|xs| - 1]);
      FirstOfEachNext(xs, before);
      at := if xs[|xs| - 1] in xs[..|xs| - 1] then before else before + [|xs| - 1];
    }
  }

  function OnChain(): seq<DepthSample> -> bool {
    (p: seq<DepthSample>) => p != [] && p[0].source != Native
  }

  /** The amounts of the first on-chain path, or the distinct inputs of the native one if there is none. */
  ghost predicate SampledLike(raw: seq<seq<DepthSample>>, native: seq<DepthSample>, samples: seq<DepthSample>) {
    && (forall j: nat :: First(raw, OnChain(), j) ==>
          |samples| == |raw[j]| && forall m :: 0 <= m < |raw[j]| ==> samples[m].input == raw[j][m].input)
    && ((forall j :: 0 <= j < |raw| ==> !OnChain()(raw[j])) ==>
          exists at :: FirstOfEach(Inputs(native), at) && |samples| == |at|
            && forall m :: 0 <= m < |at| ==> samples[m].input == native[at[m]].input)
  }

  lemma AmountsExactly(raw: seq<seq<DepthSample>>, native: Path, samples: seq<DepthSample>)
    requires |samples| == |SampleAmounts(raw, native)|
    requires forall m :: 0 <= m < |samples| ==> samples[m].input == SampleAmounts(raw, native)[m]
    ensures SampledLike(raw, native, samples)
  {
    assert forall p: seq<DepthSample> :: IsSampled(p) <==> OnChain()(p);
    forall j: nat | First(raw, OnChain(), j)
      ensures |samples| == |raw[j]| && forall m :: 0 <= m < |raw[j]| ==> samples[m].input == raw[j][m].input
    {
      FindsFirst(raw, IsSampled, j);
    }
    if forall j :: 0 <= j < |raw| ==> !OnChain()(raw[j]) {
      var at := UniquePositions(Inputs(native));
    }
  }

  /**
   * The path added for the native orders: native samples at the amounts of the first on-chain path,
   * or at their own distinct inputs, each giving what the fills of the first native path yield.
   */
  lemma NativePathAdded(raw: seq<seq<DepthSample>>, side: Side, i: nat, fills: seq<Fill>)
    requires i < |raw| && raw[i] != [] && raw[i][0].source == Native
    requires forall j :: 0 <= j < i ==> raw[j] == [] || raw[j][0].source != Native
    requires |fills| == |raw[i]|
    requires forall m :: 0 <= m < |fills| ==> fills[m].input == raw[i][m].input && fills[m].output == raw[i][m].output
    ensures Normalize(raw, side) != []
    ensures var samples := Normalize(raw, side)[|Normalize(raw, side)| - 1];
      && SampledLike(raw, raw[i], samples)
      && forall m :: 0 <= m < |samples| ==>
           samples[m].source == Native && Yields(fills, samples[m].input, side, samples[m].output)
  {
    assert First(raw, IsNative, i);
    FindsFirst(raw, IsNative, i);
    assert Fills(raw[i]) == fills;
    var amounts := SampleAmounts(raw, raw[i]);
    var samples := NativeSamples(fills, amounts, side);
    forall m | 0 <= m < |samples| ensures Yields(fills, samples[m].input, side, samples[m].output) {
      NativeSampleYields(fills, amounts, side, m);
    }
    AmountsExactly(raw, raw[i], samples);
    assert Normalize(raw, side)[|Normalize(raw, side)| - 1] == samples;
  }

  // ---- the native amounts of the chart -----------------------------------------------------

  /** The last path holds the native samples, and no other does. */
  ghost predicate NativeLast(depthSide: seq<Path>) {
    && depthSide != [] && depthSide[|depthSide| - 1][0].source == Native
    && forall p :: 0 <= p < |depthSide| - 1 ==> depthSide[p][0].source != Native
  }

  lemma NativeKey(depthSide: seq<Path>, prices: seq<Price>, side: Side, k: nat)
    requires NativeLast(depthSide) && k < |prices|
    ensures var m := Allocated(depthSide, prices, side)[k].sources;
      && (forall key :: key in m && key.source == Native ==> key == Plain(Native))
      && (match LastLanded(depthSide[|depthSide| - 1], prices, side, k)
          case None => Plain(Native) !in m
          case Some(input) => Plain(Native) in m && m[Plain(Native)] == input)
  {
    var m, n := Allocated(depthSide, prices, side)[k].sources, |depthSide| - 1;
    forall key | key in m && key.source == Native ensures key == Plain(Native) {
      PlaceAllExact(prices, side, depthSide, k, key);
      var p: nat :| LastPathIn(depthSide, prices, side, k, key, p);
    }
    PlaceAllExact(prices, side, depthSide, k, Plain(Native));
    if LastLanded(depthSide[n], prices, side, k).Some? {
      assert LastPathIn(depthSide, prices, side, k, Plain(Native), n);
    }
  }

  lemma MergedLone(m: map<Key, real>, s: Source)
    requires forall key :: key in m && key.source == s ==> key == Plain(s)
    ensures At(Merged(m), Plain(s)) == At(m, Plain(s))
  {
    if Plain(s) in m {
      assert OfSource(m, s) == map[Plain(s) := m[Plain(s)]];
      SumSplit(OfSource(m, s), Plain(s));
      assert OfSource(m, s) - {Plain(s)} == map[];
    }
  }

  lemma NativeMerged(depthSide: seq<Path>, prices: seq<Price>, side: Side, k: nat)
    requires NativeLast(depthSide) && k < |prices|
    ensures At(MergedBuckets(Allocated(depthSide, prices, side))[k], Plain(Native))
         == match LastLanded(depthSide[|depthSide| - 1], prices, side, k)
            case None => 0.0
            case Some(input) => input
  {
    NativeKey(depthSide, prices, side, k);
    MergedLone(Allocated(depthSide, prices, side)[k].sources, Native);
  }

  /** What the chart of a side shows of a source at bucket `i`. */
  ghost function Shown(depthSide: seq<Path>, prices: seq<Price>, side: Side, known: seq<Source>, i: nat,
                       s: Source): real
    requires i < |prices| && s in known
  {
    Chart(Allocated(depthSide, prices, side), known)[i].bucket.sources[Plain(s)]
  }

  lemma PoolWithinSource(m: map<Key, real>, key: Key)
    requires key in m && forall k :: k in m ==> m[k] >= 0.0
    ensures m[key] <= At(Merged(m), Plain(key.source))
  {
    var own := OfSource(m, key.source);
    SumMonotone(map[], own - {key});
    SumSplit(own, key);
  }

  lemma PoolShows(bs: seq<Bucket>, known: seq<Source>, k: nat, key: Key, i: nat)
    requires KnownKeys(bs, known) && k <= i < |bs| && key in bs[k].sources && key.source in known
    ensures bs[k].sources[key] <= Chart(bs, known)[i].bucket.sources[Plain(key.source)]
  {
    forall q | q in bs[k].sources ensures bs[k].sources[q] >= 0.0 {
      assert q.source in known;
    }
    PoolWithinSource(bs[k].sources, key);
    PrefixMaxIsMaximum(MergedBuckets(bs), i, key.source);
    assert MergedBuckets(bs)[k] == Merged(bs[k].sources);
  }

  /** On every source: the last sample of the last path of a pool in a bucket counts from there on. */
  lemma SampleShows(depthSide: seq<Path>, prices: seq<Price>, side: Side, known: seq<Source>, p: nat, key: Key, k: nat,
                    m: nat, i: nat)
    requires SourcesKnown(depthSide, known) && k <= i < |prices| && key.source in known
    requires LastPathIn(depthSide, prices, side, k, key, p) && LastIn(depthSide[p], prices, side, k, m)
    ensures depthSide[p][m].input <= Shown(depthSide, prices, side, known, i, key.source)
  {
    AllocatedBalanced(depthSide, prices, side, known);
    PlaceAllExact(prices, side, depthSide, k, key);
    LastLandedExactly(depthSide[p], prices, side, k);
    PoolShows(Allocated(depthSide, prices, side), known, k, key, i);
  }

  /** A native sample that is the last to land in its bucket shows from there on. */
  lemma NativeShows(depthSide: seq<Path>, prices: seq<Price>, side: Side, known: seq<Source>, k: nat, m: nat, i: nat)
    requires NativeLast(depthSide) && k <= i < |prices| && Native in known
    requires LastIn(depthSide[|depthSide| - 1], prices, side, k, m)
    ensures depthSide[|depthSide| - 1][m].input <= Shown(depthSide, prices, side, known, i, Native)
  {
    PrefixMaxIsMaximum(MergedBuckets(Allocated(depthSide, prices, side)), i, Native);
    NativeMerged(depthSide, prices, side, k);
    LastLandedExactly(depthSide[|depthSide| - 1], prices, side, k);
  }

  /** And nothing else does: an amount shown is that of such a sample. */
  lemma NativeShownBy(depthSide: seq<Path>, prices: seq<Price>, side: Side, known: seq<Source>, i: nat)
    returns (k: nat, m: nat)
    requires NativeLast(depthSide) && i < |prices| && Native in known
    requires Shown(depthSide, prices, side, known, i, Native) != 0.0
    ensures k <= i && LastIn(depthSide[|depthSide| - 1], prices, side, k, m)
    ensures depthSide[|depthSide| - 1][m].input == Shown(depthSide, prices, side, known, i, Native)
  {
    var native, ms := depthSide[|depthSide| - 1], MergedBuckets(Allocated(depthSide, prices, side));
    PrefixMaxIsMaximum(ms, i, Native);
    k :| 0 <= k <= i && At(ms[k], Plain(Native)) == PrefixMax(ms, i, Native);
    NativeMerged(depthSide, prices, side, k);
    LastLandedExactly(native, prices, side, k);
    m :| LastIn(native, prices, side, k, m);
  }

  lemma NativeComesLast(raw: seq<seq<DepthSample>>, side: Side, i: nat)
    requires i < |raw| && raw[i] != [] && raw[i][0].source == Native
    ensures NativeLast(Normalize(raw, side))
  {
    assert IsNative(raw[i]);
    var native := FindPath(raw, IsNative).value;
    var samples := NativeSamples(Fills(native), SampleAmounts(raw, native), side);
    assert Normalize(raw, side) == Keep(raw, IsSampled) + [samples] && samples[0].source == Native;
    forall p | 0 <= p < |Keep(raw, IsSampled)| ensures Keep(raw, IsSampled)[p][0].source != Native {
      assert IsSampled(Keep(raw, IsSampled)[p]);
    }
  }

  /** The bucket is the first whose price the sample meets. */
  ghost predicate FirstMet(s: DepthSample, prices: seq<Price>, side: Side, k: nat) {
    && k < |prices| && s.output != 0.0 && Meets(SamplePrice(s), prices[k], side)
    && forall j :: 0 <= j < k ==> !Meets(SamplePrice(s), prices[j], side)
  }

  lemma LandsWhereFirstMet(s: DepthSample, prices: seq<Price>, side: Side, k: nat)
    ensures Landing(s, prices, side) == Some(k) <==> FirstMet(s, prices, side, k)
  {
    FirstFromFinds(SamplePrice(s), prices, side, 0);
  }

  lemma NativeShowsWhereMet(depthSide: seq<Path>, prices: seq<Price>, side: Side, known: seq<Source>, k: nat, m: nat,
                            i: nat)
    requires NativeLast(depthSide) && k <= i < |prices| && Native in known
    ensures var native := depthSide[|depthSide| - 1];
      m < |native| && FirstMet(native[m], prices, side, k)
      && (forall later :: m < later < |native| ==> !FirstMet(native[later], prices, side, k)) ==>
        native[m].input <= Shown(depthSide, prices, side, known, i, Native)
  {
    forall s ensures Landing(s, prices, side) == Some(k) <==> FirstMet(s, prices, side, k) {
      LandsWhereFirstMet(s, prices, side, k);
    }
    if LastIn(depthSide[|depthSide| - 1], prices, side, k, m) {
      NativeShows(depthSide, prices, side, known, k, m, i);
    }
  }

  /**
   * From raw paths to the chart: if a raw path is native, then a sample of the path added for it
   * that gives something, and after which no other meets the same bucket first, is part of what the
   * chart shows as native from that bucket on.
   */
  lemma NativeOrdersShow(raw: seq<seq<DepthSample>>, side: Side, n: nat, base: real, slippage: real, known: seq<Source>,
                         j: nat, k: nat, m: nat, i: nat)
    requires j < |raw| && raw[j] != [] && raw[j][0].source == Native && Native in known && k <= i <= n
    ensures Normalize(raw, side) != []
    ensures var depthSide := Normalize(raw, side);
      var prices, native := DepthPrices(depthSide, side, n, base, slippage), depthSide[|depthSide| - 1];
      m < |native| && FirstMet(native[m], prices, side, k)
      && (forall later :: m < later < |native| ==> !FirstMet(native[later], prices, side, k)) ==>
        native[m].input <= Shown(depthSide, prices, side, known, i, Native)
  {
    NativeComesLast(raw, side, j);
    var depthSide := Normalize(raw, side);
    NativeShowsWhereMet(depthSide, DepthPrices(depthSide, side, n, base, slippage), side, known, k, m, i);
  }
}
