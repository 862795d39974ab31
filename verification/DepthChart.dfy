/** From allocated buckets to the cumulative chart. */
module DepthChart {
  import opened Amounts
  import opened DepthBuckets

  datatype DepthBucket = DepthBucket(bucket: Bucket, cumulative: real)

  function Max(a: real, b: real): real { if a >= b then a else b }

  // ---- what the chart means ----------------------------------------------------------------

  /** The largest amount of a source in any of the merged buckets up to `i`. */
  function PrefixMax(ms: seq<map<Key, real>>, i: nat, s: Source): real
    requires i < |ms|
  {
    Max(if i == 0 then 0.0 else PrefixMax(ms, i - 1, s), At(ms[i], Plain(s)))
  }

  /** It is the maximum: reached by some bucket up to `i`, or zero, and exceeded by none. */
  lemma {:induction false} PrefixMaxIsMaximum(ms: seq<map<Key, real>>, i: nat, s: Source)
    requires i < |ms|
    ensures forall j :: 0 <= j <= i ==> At(ms[j], Plain(s)) <= PrefixMax(ms, i, s)
    ensures PrefixMax(ms, i, s) == 0.0 || exists j :: 0 <= j <= i && At(ms[j], Plain(s)) == PrefixMax(ms, i, s)
  {
    if i == 0 {
    } else {
      PrefixMaxIsMaximum(ms, i - 1, s);
    }
  }

  function PlainKeys(known: seq<Source>): (ks: set<Key>)
    ensures forall p :: p in ks <==> p.pool.None? && p.source in known
  {
    var ks := set s | s in known :: Plain(s);
    assert forall p: Key :: p.pool.None? ==> p == Plain(p.source);
    ks
  }

  function ChartSources(ms: seq<map<Key, real>>, i: nat, known: seq<Source>): (chart: map<Key, real>)
    requires i < |ms|
    ensures forall p :: p in chart <==> p.pool.None? && p.source in known
    ensures forall p :: p in chart ==> chart[p] == PrefixMax(ms, i, p.source)
  {
    map p | p in PlainKeys(known) :: PrefixMax(ms, i, p.source)
  }

  /** Merged buckets hold non-negative amounts under plain keys of known sources. */
  ghost predicate PlainAmounts(ms: seq<map<Key, real>>, known: seq<Source>) {
    forall i, p :: 0 <= i < |ms| && p in ms[i] ==> p.pool.None? && p.source in known && ms[i][p] >= 0.0
  }

  ghost function MergedBuckets(bs: seq<Bucket>): (ms: seq<map<Key, real>>)
    ensures |ms| == |bs| && forall i :: 0 <= i < |bs| ==> ms[i] == Merged(bs[i].sources)
  {
    seq(|bs|, i requires 0 <= i < |bs| => Merged(bs[i].sources))
  }

  // ---- the backward scan -------------------------------------------------------------------

  /** The nearest earlier bucket that holds something of the source. */
  function LastNonEmpty(a: seq<Bucket>, i: nat, s: Source): real
    requires i <= |a|
  {
    if i == 0 then 0.0
    else if At(a[i - 1].sources, Plain(s)) != 0.0 then At(a[i - 1].sources, Plain(s))
    else LastNonEmpty(a, i - 1, s)
  }

  lemma PrefixMaxGrows(ms: seq<map<Key, real>>, i: nat, s: Source)
    requires i < |ms|
    ensures 0.0 <= PrefixMax(ms, i, s)
    ensures i > 0 ==> PrefixMax(ms, i - 1, s) <= PrefixMax(ms, i, s)
  {
    if i > 0 {
      PrefixMaxGrows(ms, i - 1, s);
    }
  }

  /** The buckets before `i` have been rewritten. */
  ghost predicate Rewritten(a: seq<Bucket>, ms: seq<map<Key, real>>, i: nat, known: seq<Source>)
    requires i <= |a| == |ms|
  {
    forall j :: 0 <= j < i ==> a[j].sources == ChartSources(ms, j, known)
  }

  /** Over buckets already rewritten, the nearest non-empty amount is the largest so far. */
  lemma {:induction false} ScanIsPrefixMax(a: seq<Bucket>, ms: seq<map<Key, real>>, i: nat, known: seq<Source>,
                                           s: Source)
    requires i <= |a| == |ms| && s in known && Rewritten(a, ms, i, known)
    ensures LastNonEmpty(a, i, s) == if i == 0 then 0.0 else PrefixMax(ms, i - 1, s)
  {
    if i == 0 {
    } else {
      assert a[i - 1].sources == ChartSources(ms, i - 1, known);
      assert At(a[i - 1].sources, Plain(s)) == PrefixMax(ms, i - 1, s);
      if PrefixMax(ms, i - 1, s) == 0.0 {
        ScanIsPrefixMax(a, ms, i - 1, known, s);
        PrefixMaxGrows(ms, i - 1, s);
        if i > 1 {
          PrefixMaxGrows(ms, i - 2, s);
        }
      }
    }
  }

  method FindLastNonEmptyBucket(a: array<Bucket>, bucketIndex: nat, s: Source) returns (lastValue: real)
    requires bucketIndex <= a.Length
    ensures lastValue == LastNonEmpty(a[..], bucketIndex, s)
  {
    lastValue := 0.0;
    var i: nat := bucketIndex;
    while i > 0
      invariant i <= bucketIndex && lastValue == 0.0
      invariant LastNonEmpty(a[..], bucketIndex, s) == LastNonEmpty(a[..], i, s)
    {
      i := i - 1;
      if Plain(s) in a[i].sources && a[i].sources[Plain(s)] != 0.0 {
        return a[i].sources[Plain(s)];
      }
    }
  }

  // ---- rewriting the buckets in place ------------------------------------------------------

  /** A merged bucket with the first `j` known sources already raised to their running maximum. */
  ghost predicate Raised(ms: seq<map<Key, real>>, i: nat, known: seq<Source>, j: nat, m: map<Key, real>)
    requires i < |ms| && j <= |known|
  {
    && (forall p :: p in m <==> p in ms[i] || (p.pool.None? && p.source in known[..j]))
    && (forall p :: p in m ==>
          m[p] == if p.pool.None? && p.source in known[..j] then PrefixMax(ms, i, p.source) else At(ms[i], p))
  }

  lemma RaisedAll(ms: seq<map<Key, real>>, i: nat, known: seq<Source>, m: map<Key, real>)
    requires i < |ms| && PlainAmounts(ms, known) && Raised(ms, i, known, |known|, m)
    ensures m == ChartSources(ms, i, known)
  {
    assert known[..|known|] == known;
  }

  lemma RaiseNext(ms: seq<map<Key, real>>, i: nat, known: seq<Source>, j: nat, m: map<Key, real>, previous: real)
    requires i < |ms| && j < |known| && Raised(ms, i, known, j, m)
    requires previous == if i == 0 then 0.0 else PrefixMax(ms, i - 1, known[j])
    ensures Raised(ms, i, known, j + 1, m[Plain(known[j]) := Max(previous, At(m, Plain(known[j])))])
  {
    var p := Plain(known[j]);
    assert known[..j + 1] == known[..j] + [known[j]];
    assert Max(previous, At(m, p)) == PrefixMax(ms, i, known[j]) by {
      if known[j] in known[..j] {
        PrefixMaxGrows(ms, i, known[j]);
      } else {
        assert At(m, p) == At(ms[i], p);
      }
    }
  }

  /** One bucket: merge its pools, then raise every known source to the last amount before it. */
  method NormalizeBucket(a: array<Bucket>, i: nat, known: seq<Source>, ghost ms: seq<map<Key, real>>)
    returns (m: map<Key, real>)
    requires i < a.Length == |ms| && Rewritten(a[..], ms, i, known)
    requires PlainAmounts(ms, known) && ms[i] == Merged(a[i].sources)
    requires forall k :: k in a[i].sources ==> k.source in known
    ensures m == ChartSources(ms, i, known)
  {
    m := MergePools(a[i].sources, known);
    var j := 0;
    while j < |known|
      invariant 0 <= j <= |known|
      invariant Raised(ms, i, known, j, m)
    {
      var previous := FindLastNonEmptyBucket(a, i, known[j]);
      ScanIsPrefixMax(a[..], ms, i, known, known[j]);
      RaiseNext(ms, i, known, j, m, previous);
      m := m[Plain(known[j]) := Max(previous, At(m, Plain(known[j])))];
      j := j + 1;
    }
    RaisedAll(ms, i, known, m);
  }

  ghost function CumulativeAt(bs: seq<Bucket>, i: nat, known: seq<Source>): real
    requires i < |bs|
  {
    SumOf(ChartSources(MergedBuckets(bs), i, known))
  }

  ghost function ChartBucket(bs: seq<Bucket>, i: nat, known: seq<Source>): DepthBucket
    requires i < |bs|
  {
    DepthBucket(bs[i].(sources := ChartSources(MergedBuckets(bs), i, known)), CumulativeAt(bs, i, known))
  }

  /** The chart the source returns: every bucket rewritten, with the sum of its amounts. */
  ghost function Chart(bs: seq<Bucket>, known: seq<Source>): (chart: seq<DepthBucket>)
    ensures |chart| == |bs| && forall i :: 0 <= i < |bs| ==> chart[i] == ChartBucket(bs, i, known)
  {
    seq(|bs|, i requires 0 <= i < |bs| => ChartBucket(bs, i, known))
  }

  method NormalizeBuckets(a: array<Bucket>, known: seq<Source>) returns (chart: seq<DepthBucket>)
    requires KnownKeys(a[..], known)
    modifies a
    ensures chart == Chart(old(a[..]), known)
    ensures forall i :: 0 <= i < a.Length ==> a[i] == chart[i].bucket
  {
    ghost var bs, ms := a[..], MergedBuckets(a[..]);
    MergedPlainAmounts(bs, known);
    chart := [];
    var i := 0;
    while i < a.Length
      invariant 0 <= i <= a.Length && |chart| == i
      invariant Rewritten(a[..], ms, i, known)
      invariant forall j :: 0 <= j < i ==> a[j] == chart[j].bucket && chart[j] == Chart(bs, known)[j]
      invariant forall j :: i <= j < a.Length ==> a[j] == bs[j]
    {
      assert a[i] == bs[i];
      var m := NormalizeBucket(a, i, known, ms);
      a[i] := a[i].(sources := m);
      var cumulative := Total(m);
      chart := chart + [DepthBucket(a[i], cumulative)];
      i := i + 1;
    }
  }

  // ---- the cumulative amounts --------------------------------------------------------------

  function PoolKeys(m: map<Key, real>): set<Key> {
    set k | k in m && k.pool.Some?
  }

  /** Merging pools moves amounts between keys but loses nothing. */
  lemma {:induction false} MergedSum(m: map<Key, real>)
    ensures SumOf(Merged(m)) == SumOf(m)
    decreases PoolKeys(m)
  {
    if NoPools(m) {
      MergedPlain(m);
    } else {
      var k :| k in m && k.pool.Some?;
      MergeKeyKeeps(m, k);
      assert PoolKeys(MergeKey(m, k)) == PoolKeys(m) - {k};
      MergedSum(MergeKey(m, k));
    }
  }

  lemma MergedPlainAmounts(bs: seq<Bucket>, known: seq<Source>)
    requires KnownKeys(bs, known)
    ensures PlainAmounts(MergedBuckets(bs), known)
  {
    forall i, p | 0 <= i < |bs| && p in Merged(bs[i].sources)
      ensures p.pool.None? && p.source in known && Merged(bs[i].sources)[p] >= 0.0
    {
      var m := bs[i].sources;
      var k :| k in m && Plain(k.source) == p;
      SumMonotone(map[], OfSource(m, p.source));
    }
  }

  /** The cumulative amount never falls from one bucket to the next. */
  lemma CumulativeGrows(bs: seq<Bucket>, i: nat, known: seq<Source>)
    requires i + 1 < |bs|
    ensures Chart(bs, known)[i].cumulative <= Chart(bs, known)[i + 1].cumulative
  {
    var ms := MergedBuckets(bs);
    var a, b := ChartSources(ms, i, known), ChartSources(ms, i + 1, known);
    forall p | p in b ensures At(a, p) <= b[p] {
      PrefixMaxGrows(ms, i + 1, p.source);
    }
    SumMonotone(a, b);
  }

  function TotalSoFar(bs: seq<Bucket>, i: nat): real
    requires i < |bs|
  {
    (if i == 0 then 0.0 else TotalSoFar(bs, i - 1)) + bs[i].bucketTotal
  }

  lemma ChartWithin(ms: seq<map<Key, real>>, i: nat, known: seq<Source>)
    requires i < |ms| && PlainAmounts(ms, known)
    ensures SumOf(ms[i]) <= SumOf(ChartSources(ms, i, known))
    ensures SumOf(ChartSources(ms, i, known))
         <= (if i == 0 then 0.0 else SumOf(ChartSources(ms, i - 1, known))) + SumOf(ms[i])
  {
    var chart := ChartSources(ms, i, known);
    SumMonotone(ms[i], chart);
    var before: map<Key, real> := if i == 0 then map[] else ChartSources(ms, i - 1, known);
    forall p | p in chart ensures chart[p] <= At(before, p) + At(ms[i], p) {
      if i > 0 {
        PrefixMaxGrows(ms, i - 1, p.source);
      }
    }
    SumSubadditive(chart, before, ms[i]);
  }

  lemma AmountStep(bs: seq<Bucket>, i: nat, known: seq<Source>)
    requires i < |bs| && KnownKeys(bs, known) && Balanced(bs[i])
    ensures bs[i].bucketTotal <= CumulativeAt(bs, i, known)
    ensures CumulativeAt(bs, i, known)
         <= (if i == 0 then 0.0 else CumulativeAt(bs, i - 1, known)) + bs[i].bucketTotal
  {
    var ms := MergedBuckets(bs);
    assert PlainAmounts(ms, known) by { MergedPlainAmounts(bs, known); }
    assert SumOf(ms[i]) == bs[i].bucketTotal by { MergedSum(bs[i].sources); }
    ChartWithin(ms, i, known);
  }

  /** Each bucket adds at most its own total. */
  lemma CumulativeStep(bs: seq<Bucket>, i: nat, known: seq<Source>)
    requires i < |bs| && KnownKeys(bs, known) && Balanced(bs[i])
    ensures bs[i].bucketTotal <= Chart(bs, known)[i].cumulative
    ensures Chart(bs, known)[i].cumulative
         <= (if i == 0 then 0.0 else Chart(bs, known)[i - 1].cumulative) + bs[i].bucketTotal
  {
    AmountStep(bs, i, known);
    assert Chart(bs, known)[i] == ChartBucket(bs, i, known);
  }

  /** It lies between the bucket's own total and the sum of all totals so far. */
  lemma {:induction false} CumulativeBounds(bs: seq<Bucket>, i: nat, known: seq<Source>)
    requires i < |bs| && KnownKeys(bs, known) && AllBalanced(bs)
    ensures bs[i].bucketTotal <= Chart(bs, known)[i].cumulative <= TotalSoFar(bs, i)
  {
    CumulativeStep(bs, i, known);
    if i == 0 {
    } else {
      CumulativeBounds(bs, i - 1, known);
    }
  }

  /** In the first bucket nothing is carried over: the cumulative amount is the bucket's total. */
  lemma CumulativeStarts(bs: seq<Bucket>, known: seq<Source>)
    requires bs != [] && KnownKeys(bs, known) && AllBalanced(bs)
    ensures Chart(bs, known)[0].cumulative == bs[0].bucketTotal
  {
    CumulativeBounds(bs, 0, known);
  }
}
