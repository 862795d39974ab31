/** The depth of one side of a market: normalise, price, allocate, accumulate. */
module MarketDepth {
  import opened Wrappers
  import opened Rounding
  import opened Filtering
  import opened NativeOrders
  import opened BucketPrices
  import opened DepthBuckets
  import opened DepthChart

  // ---- native orders become samples --------------------------------------------------------

  predicate IsNative(path: seq<DepthSample>) {
    path != [] && path[0].source == Native
  }

  predicate IsSampled(path: seq<DepthSample>) {
    path != [] && path[0].source != Native
  }

  function FindPath(raw: seq<seq<DepthSample>>, keep: seq<DepthSample> -> bool): (r: Option<seq<DepthSample>>)
    ensures r.Some? ==> r.value in raw && keep(r.value)
    ensures r.None? ==> forall p :: p in raw ==> !keep(p)
  {
    if raw == [] then None
    else if keep(raw[0]) then Some(raw[0])
    else FindPath(raw[1..], keep)
  }

  type Amount = x: real | x > 0.0 witness 1.0

  function Inputs(path: seq<DepthSample>): (xs: seq<Amount>)
    ensures |xs| == |path|
  {
    seq(|path|, i requires 0 <= i < |path| => path[i].input)
  }

  /** `uniqBy`: the first of each. */
  function Unique(xs: seq<Amount>): (r: seq<Amount>)
    ensures forall x :: x in r <==> x in xs
    ensures forall i, j :: 0 <= i < j < |r| ==> r[i] != r[j]
  {
    if xs == [] then []
    else
      var last := xs[|xs| - 1];
      var r := Unique(xs[..|xs| - 1]);
      assert xs == xs[..|xs| - 1] + [last];
      if last in xs[..|xs| - 1] then r else r + [last]
  }

  /** The inputs of an on-chain source if there is one, else the distinct inputs of the native orders. */
  function SampleAmounts(raw: seq<seq<DepthSample>>, native: seq<DepthSample>): (xs: seq<Amount>)
    requires native != []
    ensures xs != []
  {
    var sampled := FindPath(raw, IsSampled);
    if sampled.Some? then Inputs(sampled.value)
    else
      assert Inputs(native)[0] in Unique(Inputs(native));
      Unique(Inputs(native))
  }

  function Fills(path: seq<DepthSample>): (fills: seq<Fill>)
    ensures |fills| == |path|
  {
    seq(|path|, i requires 0 <= i < |path| => RawFill(path[i].input, path[i].output))
  }

  lemma {:induction false} RoundedValueNotNegative(path: seq<Fill>, xs: seq<real>)
    requires Allocation(path, xs)
    ensures RoundedValue(path, xs) >= 0
  {
    if path == [] {
    } else {
      RoundedValueNotNegative(path[1..], xs[1..]);
      ShareMonotone(path[0], 0.0, xs[0]);
      assert Share(path[0], 0.0) == 0.0;
      RoundMonotone(0.0, Share(path[0], xs[0]));
      RoundFixesIntegers(0);
    }
  }

  lemma SampleNotNegative(path: seq<Fill>, target: real, side: Side)
    ensures Sample(path, target, side) >= 0
  {
    var sorted := SortedPath(path, side);
    UsesAllocate(sorted, target);
    RoundedValueNotNegative(sorted, Uses(sorted, target));
  }

  function NativeSample(path: seq<Fill>, amount: Amount, side: Side): (s: DepthSample)
    ensures s.source == Native && s.input == amount
  {
    SampleNotNegative(path, amount, side);
    RawSample(Native, None, amount, Sample(path, amount, side) as real)
  }

  /** The path after `k` calls that each sort it in place. */
  function PathAfter(path: seq<Fill>, side: Side, k: nat): seq<Fill> {
    if k == 0 then path else SortedPath(PathAfter(path, side, k - 1), side)
  }

  /** Each call sorts the shared path in place, so the next one starts from the sorted path. */
  function NativeSamples(path: seq<Fill>, amounts: seq<Amount>, side: Side): (samples: seq<DepthSample>)
    ensures |samples| == |amounts|
    ensures forall i :: 0 <= i < |samples| ==> samples[i].source == Native && samples[i].input == amounts[i]
  {
    seq(|amounts|, i requires 0 <= i < |amounts| => NativeSample(PathAfter(path, side, i), amounts[i], side))
  }

  function Keep(raw: seq<seq<DepthSample>>, keep: seq<DepthSample> -> bool): (r: seq<Path>)
    requires forall p :: keep(p) ==> p != []
    ensures forall p :: p in r ==> p in raw && keep(p)
  {
    var kept := Filter(raw, keep);
    assert forall i :: 0 <= i < |kept| ==> kept[i] in kept;
    kept
  }

  function Normalize(raw: seq<seq<DepthSample>>, side: Side): (depthSide: seq<Path>) {
    var native := FindPath(raw, IsNative);
    if native.None? then Keep(raw, (p: seq<DepthSample>) => p != [])
    else Keep(raw, IsSampled) + [NativeSamples(Fills(native.value), SampleAmounts(raw, native.value), side)]
  }

  // ---- best price and limit ----------------------------------------------------------------

  function PricesOf(path: seq<DepthSample>): (ps: seq<real>)
    ensures forall p :: p in ps <==>
      exists i :: 0 <= i < |path| && path[i].output != 0.0 && SamplePrice(path[i]) == p > 0.0
    ensures forall p :: p in ps ==> p > 0.0 && OnGrid(p)
  {
    if path == [] then []
    else
      var last := path[|path| - 1];
      var ps := PricesOf(path[..|path| - 1]);
      Decimals18OnGrid(last.output / last.input);
      if last.output != 0.0 && SamplePrice(last) > 0.0 then ps + [SamplePrice(last)] else ps
  }

  function AllPrices(depthSide: seq<Path>): (ps: seq<real>)
    ensures forall p :: p in ps <==> exists i :: 0 <= i < |depthSide| && p in PricesOf(depthSide[i])
    ensures forall p :: p in ps ==> p > 0.0 && OnGrid(p)
  {
    if depthSide == [] then []
    else AllPrices(depthSide[..|depthSide| - 1]) + PricesOf(depthSide[|depthSide| - 1])
  }

  function Best(ps: seq<real>, side: Side): (best: real)
    requires ps != []
    ensures best in ps && forall p :: p in ps ==> Toward(best, p, side)
  {
    if |ps| == 1 then ps[0]
    else
      var rest := Best(ps[1..], side);
      assert forall p :: p in ps ==> p == ps[0] || p in ps[1..];
      if Toward(ps[0], rest, side) then ps[0] else rest
  }

  /** No price at all makes the source compute with NaN from here on. */
  function StartEndPrice(depthSide: seq<Path>, side: Side, slippage: real): Option<(real, real)> {
    var ps := AllPrices(depthSide);
    if ps == [] then None
    else
      Some((Best(ps, side), Limit(Best(ps, side), side, slippage)))
  }

  // ---- the whole calculation ---------------------------------------------------------------

  /** The bucket prices of a side; without any sample price none of them is a number. */
  function DepthPrices(depthSide: seq<Path>, side: Side, n: nat, base: real, slippage: real): (prices: seq<Price>)
    ensures |prices| == n + 1
  {
    var ends := StartEndPrice(depthSide, side, slippage);
    if ends.None? then NoNumbers(n + 1) else PricesFor(ends.value.0, ends.value.1, n, base)
  }

  ghost predicate SourcesKnown(depthSide: seq<Path>, known: seq<Source>) {
    forall i :: 0 <= i < |depthSide| ==> depthSide[i][0].source in known
  }

  /** The buckets a side's samples end up in. */
  function Allocated(depthSide: seq<Path>, prices: seq<Price>, side: Side): (bs: seq<Bucket>)
    ensures |bs| == |prices|
  {
    PlaceAll(EmptyBuckets(prices), prices, side, depthSide)
  }

  lemma AllocatedBalanced(depthSide: seq<Path>, prices: seq<Price>, side: Side, known: seq<Source>)
    requires SourcesKnown(depthSide, known)
    ensures AllBalanced(Allocated(depthSide, prices, side)) && KnownKeys(Allocated(depthSide, prices, side), known)
  {
    PlaceAllBalanced(EmptyBuckets(prices), prices, side, depthSide, known);
  }

  /** All buckets are there and empty. */
  ghost predicate NothingShown(chart: seq<DepthBucket>, n: nat, known: seq<Source>) {
    && |chart| == n + 1
    && forall i :: 0 <= i < |chart| ==>
         && chart[i].cumulative == 0.0 && chart[i].bucket.bucketTotal == 0.0 && chart[i].bucket.bucket == i
         && chart[i].bucket.sources == map p | p in PlainKeys(known) :: 0.0
  }

  lemma {:induction false} NothingSoFar(bs: seq<Bucket>, i: nat, s: Source)
    requires i < |bs| && forall j :: 0 <= j < |bs| ==> bs[j].sources == map[] && bs[j].bucketTotal == 0.0
    ensures PrefixMax(MergedBuckets(bs), i, s) == 0.0 && TotalSoFar(bs, i) == 0.0
  {
    MergedPlain(bs[i].sources);
    if i == 0 {
    } else {
      NothingSoFar(bs, i - 1, s);
    }
  }

  lemma EmptyChart(prices: seq<Price>, n: nat, known: seq<Source>)
    requires |prices| == n + 1
    ensures NothingShown(Chart(EmptyBuckets(prices), known), n, known)
  {
    var bs := EmptyBuckets(prices);
    var chart := Chart(bs, known);
    forall i | 0 <= i < |chart|
      ensures chart[i].cumulative == 0.0 && chart[i].bucket.sources == map p | p in PlainKeys(known) :: 0.0
    {
      forall s ensures PrefixMax(MergedBuckets(bs), i, s) == 0.0 && TotalSoFar(bs, i) == 0.0 {
        NothingSoFar(bs, i, s);
      }
      assert chart[i].bucket.sources == map p | p in PlainKeys(known) :: 0.0;
      assert AllBalanced(bs) && KnownKeys(bs, known);
      CumulativeBounds(bs, i, known);
    }
  }

  lemma {:induction false} NothingPlaced(bs: seq<Bucket>, n: nat, side: Side, key: Key, path: seq<DepthSample>)
    ensures PlacePath(bs, NoNumbers(n), side, key, path) == bs
  {
    if path == [] {
    } else {
      NothingPlaced(bs, n, side, key, path[..|path| - 1]);
      FirstFromFinds(SamplePrice(path[|path| - 1]), NoNumbers(n), side, 0);
    }
  }

  lemma {:induction false} NothingAllocated(bs: seq<Bucket>, n: nat, side: Side, depthSide: seq<Path>)
    ensures PlaceAll(bs, NoNumbers(n), side, depthSide) == bs
  {
    if depthSide == [] {
    } else {
      var path := depthSide[|depthSide| - 1];
      NothingAllocated(bs, n, side, depthSide[..|depthSide| - 1]);
      NothingPlaced(bs, n, side, SourceKey(path[0]), path);
    }
  }

  /** Without a price no sample meets a bucket, and the chart shows nothing. */
  lemma NoPriceNothingShown(depthSide: seq<Path>, side: Side, n: nat, base: real, slippage: real, known: seq<Source>)
    requires AllPrices(depthSide) == []
    ensures NothingShown(Chart(Allocated(depthSide, DepthPrices(depthSide, side, n, base, slippage), side), known),
                         n, known)
  {
    var prices := NoNumbers(n + 1);
    assert DepthPrices(depthSide, side, n, base, slippage) == prices;
    assert Allocated(depthSide, prices, side) == EmptyBuckets(prices) by {
      NothingAllocated(EmptyBuckets(prices), n + 1, side, depthSide);
    }
    EmptyChart(prices, n, known);
  }

  /** For any samples, distribution and slippage. */
  method CalculateDepthForSide(raw: seq<seq<DepthSample>>, side: Side, n: nat, base: real, slippage: real,
                               known: seq<Source>)
    returns (chart: seq<DepthBucket>)
    requires SourcesKnown(Normalize(raw, side), known)
    ensures var depthSide := Normalize(raw, side);
      chart == Chart(Allocated(depthSide, DepthPrices(depthSide, side, n, base, slippage), side), known)
  {
    var depthSide := Normalize(raw, side);
    var prices := DepthPrices(depthSide, side, n, base, slippage);
    var empty := EmptyBuckets(prices);
    var buckets := new Bucket[|empty|](i requires 0 <= i < |empty| => empty[i]);
    assert buckets[..] == empty;
    AllocatedBalanced(depthSide, prices, side, known);
    Allocate(buckets, prices, side, depthSide);
    chart := NormalizeBuckets(buckets, known);
  }

  /**
   * Where samples go, for any distribution: a sample that gives something is dropped exactly when its
   * price meets no bucket, otherwise it goes to the first one it meets, and the best price goes to
   * bucket 0. Where the grid keeps its direction, dropped means worse than the last bucket.
   */
  lemma SamplesLand(depthSide: seq<Path>, side: Side, n: nat, base: real, slippage: real, s: DepthSample)
    requires s.output != 0.0
    ensures LandsFirst(s, DepthPrices(depthSide, side, n, base, slippage), side)
    ensures AllPrices(depthSide) != [] && SamplePrice(s) == Best(AllPrices(depthSide), side) ==>
      Landing(s, DepthPrices(depthSide, side, n, base, slippage), side) == Some(0)
    ensures AllPrices(depthSide) != [] && KeepsDirection(n, base, slippage) ==>
      LandsOnGrid(s, DepthPrices(depthSide, side, n, base, slippage), side)
  {
    LandsFirstAlways(s, DepthPrices(depthSide, side, n, base, slippage), side);
    if AllPrices(depthSide) != [] && KeepsDirection(n, base, slippage) {
      GridKeepsDirection(Best(AllPrices(depthSide), side), n, base, side, slippage);
      LandsOnOrdered(s, DepthPrices(depthSide, side, n, base, slippage), side);
    }
  }

  lemma LandsFirstAlways(s: DepthSample, prices: seq<Price>, side: Side)
    requires s.output != 0.0
    ensures LandsFirst(s, prices, side)
  {
    FirstFromFinds(SamplePrice(s), prices, side, 0);
  }

  lemma LandsOnOrdered(s: DepthSample, prices: seq<Price>, side: Side)
    requires s.output != 0.0 && prices != [] && RunsToLimit(prices, side)
    ensures LandsOnGrid(s, prices, side)
  {
    BucketIdExact(SamplePrice(s), prices, side);
  }

  lemma CancelledLanding(s: DepthSample, best: real, end: real, n: nat, side: Side)
    requires s.output != 0.0 && n > 0 && best != end && Toward(best, end, side)
    ensures Landing(s, CancelledPrices(best, end, n), side)
         == Some(if Toward(SamplePrice(s), best, side) then 0 else 1)
  {
    var prices := CancelledPrices(best, end, n);
    assert Meets(SamplePrice(s), prices[1], side);
    assert FirstFrom(SamplePrice(s), prices, side, 1) == Some(1);
  }

  lemma LimitApart(best: real, side: Side, slippage: real)
    requires best > 0.0 && slippage > 0.0
    ensures best != Limit(best, side, slippage)
  {
    LimitSpan(best, side, slippage);
    assert best * (slippage / 100.0) > 0.0;
  }

  /** If the shares cancel out nothing is dropped: what misses the best price goes to bucket 1. */
  lemma CancelledSamplesLand(depthSide: seq<Path>, side: Side, n: nat, base: real, slippage: real, s: DepthSample)
    requires s.output != 0.0 && slippage > 0.0
    ensures AllPrices(depthSide) != [] && !GridDefined(n, base) ==>
      Landing(s, DepthPrices(depthSide, side, n, base, slippage), side)
      == Some(if Toward(SamplePrice(s), Best(AllPrices(depthSide), side), side) then 0 else 1)
  {
    if AllPrices(depthSide) != [] && !GridDefined(n, base) {
      var best := Best(AllPrices(depthSide), side);
      CancelledShares(n, base);
      LimitApart(best, side, slippage);
      LimitToward(best, side, slippage);
      CancelledLanding(s, best, Limit(best, side, slippage), n, side);
    }
  }

  ghost predicate LandsFirst(s: DepthSample, prices: seq<Price>, side: Side) {
    && (Landing(s, prices, side).None? <==> forall k :: 0 <= k < |prices| ==> !Meets(SamplePrice(s), prices[k], side))
    && (forall k :: 0 <= k < |prices| ==>
          (Landing(s, prices, side) == Some(k) <==>
            && Meets(SamplePrice(s), prices[k], side)
            && forall j :: 0 <= j < k ==> !Meets(SamplePrice(s), prices[j], side)))
  }

  ghost predicate LandsOnGrid(s: DepthSample, prices: seq<Price>, side: Side) {
    && prices != [] && RunsToLimit(prices, side)
    && (Landing(s, prices, side).None? <==> !Meets(SamplePrice(s), prices[|prices| - 1], side))
    && (forall k :: 0 <= k < |prices| ==>
          (Landing(s, prices, side) == Some(k) <==>
            Meets(SamplePrice(s), prices[k], side) && (k > 0 ==> !Meets(SamplePrice(s), prices[k - 1], side))))
  }

  /** One sample of output `best` for one unit of input. */
  function LoneSample(best: real): (depthSide: seq<Path>)
    requires best > 0.0
  {
    var path: Path := [RawSample(Curve, None, 1.0, best)];
    [path]
  }

  lemma LoneSamplePrices(best: real, side: Side)
    requires best > 0.0 && OnGrid(best)
    ensures AllPrices(LoneSample(best)) != [] && Best(AllPrices(LoneSample(best)), side) == best
  {
    var depthSide := LoneSample(best);
    var path := depthSide[0];
    Decimals18OnGrid(best);
    assert SamplePrice(path[0]) == best;
    assert best in PricesOf(path) && best in AllPrices(depthSide);
  }

  /** The prices of the calculation are numbers and run from best to limit, whatever the samples, exactly then. */
  lemma DepthPricesOrderedExactly(side: Side, n: nat, base: real, slippage: real)
    ensures (forall depthSide :: AllPrices(depthSide) != [] ==>
              RunsToLimit(DepthPrices(depthSide, side, n, base, slippage), side))
            <==> KeepsDirection(n, base, slippage)
  {
    if KeepsDirection(n, base, slippage) {
      forall depthSide | AllPrices(depthSide) != []
        ensures RunsToLimit(DepthPrices(depthSide, side, n, base, slippage), side)
      {
        GridKeepsDirection(Best(AllPrices(depthSide), side), n, base, side, slippage);
      }
    } else {
      var best := GridFails(n, base, side, slippage);
      LoneSamplePrices(best, side);
      assert !RunsToLimit(DepthPrices(LoneSample(best), side, n, base, slippage), side);
    }
  }

  /**
   * The chart of a side: each total is the sum of its sources, and the cumulative amount starts at
   * the first total, never falls, and stays between a bucket's own total and all totals so far.
   */
  lemma DepthCurve(depthSide: seq<Path>, prices: seq<Price>, side: Side, known: seq<Source>, i: nat)
    requires SourcesKnown(depthSide, known) && i < |prices|
    ensures Balanced(Allocated(depthSide, prices, side)[i])
    ensures var bs := Allocated(depthSide, prices, side);
      bs[i].bucketTotal <= Chart(bs, known)[i].cumulative <= TotalSoFar(bs, i)
    ensures var bs := Allocated(depthSide, prices, side);
      i + 1 < |prices| ==> Chart(bs, known)[i].cumulative <= Chart(bs, known)[i + 1].cumulative
    ensures var bs := Allocated(depthSide, prices, side);
      i == 0 ==> Chart(bs, known)[i].cumulative == bs[i].bucketTotal
  {
    var bs := Allocated(depthSide, prices, side);
    AllocatedBalanced(depthSide, prices, side, known);
    CumulativeBounds(bs, i, known);
    if i == 0 {
      CumulativeStarts(bs, known);
    }
    if i + 1 < |prices| {
      CumulativeGrows(bs, i, known);
    }
  }
}
