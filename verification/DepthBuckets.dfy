/** Allocating samples to price buckets, then turning the buckets into a cumulative depth chart. */
module DepthBuckets {
  import opened Wrappers
  import opened Rounding
  import opened NativeOrders
  import opened BucketPrices
  import opened Amounts

  datatype Source = Native | Curve | Balancer | UniswapV2 | Other(name: string)

  /** `fillData` stands for the pool address or token path that tells pools of one source apart. */
  datatype RawSample = RawSample(source: Source, fillData: Option<string>, input: real, output: real)

  type DepthSample = s: RawSample | s.input > 0.0 && s.output >= 0.0 witness RawSample(Native, None, 1.0, 1.0)

  /** `source` or `source:pool`. */
  datatype Key = Key(source: Source, pool: Option<string>)

  function Plain(s: Source): Key { Key(s, None) }

  function SourceKey(s: DepthSample): (k: Key)
    ensures k.source == s.source
  {
    if s.source in {Curve, Balancer, UniswapV2} then Key(s.source, s.fillData) else Plain(s.source)
  }

  /** Samples share a key exactly if they are of one source and, where a source has pools, of one pool. */
  lemma PoolsAreToldApart(a: DepthSample, b: DepthSample)
    ensures SourceKey(a) == SourceKey(b) <==>
      && a.source == b.source
      && (a.source in {Curve, Balancer, UniswapV2} ==> a.fillData == b.fillData)
  {
  }

  datatype Bucket = Bucket(price: Price, bucket: nat, bucketTotal: real, sources: map<Key, real>)

  // ---- allocation --------------------------------------------------------------------------

  /** A later sample of the same source in the same bucket replaces the earlier one. */
  function AddSample(b: Bucket, key: Key, input: real): Bucket {
    var total := if key in b.sources && b.sources[key] != 0.0
                 then b.bucketTotal - b.sources[key] + input
                 else b.bucketTotal + input;
    b.(bucketTotal := total, sources := b.sources[key := input])
  }

  function SamplePrice(s: DepthSample): real {
    Decimals18(s.output / s.input)
  }

  /** The price is what a unit of input gives, to 18 decimal places. */
  lemma SamplePriceNear(s: DepthSample)
    ensures OnGrid(SamplePrice(s))
    ensures s.output / s.input - 0.5 / UNITS <= SamplePrice(s) <= s.output / s.input + 0.5 / UNITS
  {
    var x := s.output / s.input;
    Decimals18OnGrid(x);
    RoundIsNearest(x * UNITS);
  }

  /** The bucket a sample is put in: none if it gives nothing or is worse than every bucket. */
  function Landing(s: DepthSample, prices: seq<Price>, side: Side): Option<nat> {
    if s.output == 0.0 then None else BucketId(SamplePrice(s), prices, side)
  }

  function Place(bs: seq<Bucket>, prices: seq<Price>, side: Side, key: Key, s: DepthSample): (r: seq<Bucket>)
    ensures |r| == |bs|
  {
    var k := Landing(s, prices, side);
    if k.None? || k.value >= |bs| then bs
    else bs[k.value := AddSample(bs[k.value], key, s.input)]
  }

  function PlacePath(bs: seq<Bucket>, prices: seq<Price>, side: Side, key: Key, path: seq<DepthSample>)
    : (r: seq<Bucket>)
    ensures |r| == |bs|
  {
    if path == [] then bs
    else Place(PlacePath(bs, prices, side, key, path[..|path| - 1]), prices, side, key, path[|path| - 1])
  }

  type Path = p: seq<DepthSample> | p != [] witness [RawSample(Native, None, 1.0, 1.0)]

  function PlaceAll(bs: seq<Bucket>, prices: seq<Price>, side: Side, depthSide: seq<Path>): (r: seq<Bucket>)
    ensures |r| == |bs|
  {
    if depthSide == [] then bs
    else
      var path := depthSide[|depthSide| - 1];
      PlacePath(PlaceAll(bs, prices, side, depthSide[..|depthSide| - 1]), prices, side, SourceKey(path[0]), path)
  }

  function EmptyBuckets(prices: seq<Price>): (bs: seq<Bucket>)
    ensures |bs| == |prices|
  {
    seq(|prices|, (i: nat) requires i < |prices| => Bucket(prices[i], i, 0.0, map[]))
  }

  /** The running total is what the sources add up to. */
  ghost predicate Balanced(b: Bucket) {
    b.bucketTotal == SumOf(b.sources)
  }

  ghost predicate AllBalanced(bs: seq<Bucket>) {
    forall i :: 0 <= i < |bs| ==> Balanced(bs[i])
  }

  lemma AddSampleBalanced(b: Bucket, key: Key, input: real)
    requires Balanced(b)
    ensures Balanced(AddSample(b, key, input))
  {
    SumPut(b.sources, key, input);
  }

  /** The input of the last sample of a path that landed in bucket `k`. */
  function LastLanded(path: seq<DepthSample>, prices: seq<Price>, side: Side, k: nat): Option<real> {
    if path == [] then None
    else
      var last := path[|path| - 1];
      if Landing(last, prices, side) == Some(k) then Some(last.input)
      else LastLanded(path[..|path| - 1], prices, side, k)
  }

  /**
   * After a path is placed each bucket stays balanced and holds, under the path's key, exactly the
   * input of the last sample that landed there; nothing else changes.
   */
  lemma {:induction false} PlacePathExact(bs: seq<Bucket>, prices: seq<Price>, side: Side, key: Key,
                                          path: seq<DepthSample>)
    ensures AllBalanced(bs) ==> AllBalanced(PlacePath(bs, prices, side, key, path))
    ensures forall k :: 0 <= k < |bs| ==>
      PlacePath(bs, prices, side, key, path)[k].sources
      == (match LastLanded(path, prices, side, k)
          case None => bs[k].sources
          case Some(input) => bs[k].sources[key := input])
    ensures forall k :: 0 <= k < |bs| ==>
      PlacePath(bs, prices, side, key, path)[k].price == bs[k].price
          && PlacePath(bs, prices, side, key, path)[k].bucket == bs[k].bucket
  {
    if path == [] {
    } else {
      var shorter := path[..|path| - 1];
      PlacePathExact(bs, prices, side, key, shorter);
      var mid, last := PlacePath(bs, prices, side, key, shorter), path[|path| - 1];
      var k := Landing(last, prices, side);
      if k.Some? && k.value < |bs| && Balanced(mid[k.value]) {
        AddSampleBalanced(mid[k.value], key, last.input);
      }
    }
  }

  /** Sample `m` is the last of its path in bucket `k`. */
  ghost predicate LastIn(path: seq<DepthSample>, prices: seq<Price>, side: Side, k: nat, m: nat) {
    && m < |path| && Landing(path[m], prices, side) == Some(k)
    && forall n :: m < n < |path| ==> Landing(path[n], prices, side) != Some(k)
  }

  lemma {:induction false} LastLandedExactly(path: seq<DepthSample>, prices: seq<Price>, side: Side, k: nat)
    ensures LastLanded(path, prices, side, k).None? <==>
      forall m :: 0 <= m < |path| ==> Landing(path[m], prices, side) != Some(k)
    ensures forall m: nat :: LastIn(path, prices, side, k, m) ==>
      LastLanded(path, prices, side, k) == Some(path[m].input)
    ensures LastLanded(path, prices, side, k).Some? ==> exists m: nat :: LastIn(path, prices, side, k, m)
  {
    if path == [] {
    } else {
      var n, shorter := |path| - 1, path[..|path| - 1];
      LastLandedExactly(shorter, prices, side, k);
      if Landing(path[n], prices, side) == Some(k) {
        assert LastIn(path, prices, side, k, n);
      } else {
        forall m: nat | m < n
          ensures LastIn(shorter, prices, side, k, m) == LastIn(path, prices, side, k, m)
        {
        }
      }
    }
  }

  /** Path `p` is the last one of its key with a sample in bucket `k`. */
  ghost predicate LastPathIn(depthSide: seq<Path>, prices: seq<Price>, side: Side, k: nat, key: Key, p: nat) {
    && p < |depthSide| && SourceKey(depthSide[p][0]) == key && LastLanded(depthSide[p], prices, side, k).Some?
    && forall q :: p < q < |depthSide| && SourceKey(depthSide[q][0]) == key ==>
         LastLanded(depthSide[q], prices, side, k).None?
  }

  /** Every bucket keeps the price and the number it started with. */
  lemma {:induction false} BucketsKeepPrices(prices: seq<Price>, side: Side, depthSide: seq<Path>)
    ensures forall k :: 0 <= k < |prices| ==>
      var b := PlaceAll(EmptyBuckets(prices), prices, side, depthSide)[k];
      b.price == prices[k] && b.bucket == k
  {
    if depthSide == [] {
    } else {
      var shorter, path := depthSide[..|depthSide| - 1], depthSide[|depthSide| - 1];
      BucketsKeepPrices(prices, side, shorter);
      PlacePathExact(PlaceAll(EmptyBuckets(prices), prices, side, shorter), prices, side, SourceKey(path[0]), path);
    }
  }

  lemma LastPathNext(depthSide: seq<Path>, prices: seq<Price>, side: Side, k: nat, key: Key)
    requires depthSide != []
    ensures var n, shorter := |depthSide| - 1, depthSide[..|depthSide| - 1];
      if SourceKey(depthSide[n][0]) == key && LastLanded(depthSide[n], prices, side, k).Some?
      then forall p: nat :: LastPathIn(depthSide, prices, side, k, key, p) <==> p == n
      else forall p: nat ::
        LastPathIn(depthSide, prices, side, k, key, p) <==> LastPathIn(shorter, prices, side, k, key, p)
  {
  }

  /**
   * What the empty buckets end up with: a bucket holds a key exactly if some path of that key has a
   * sample there, and then the input of the last such sample of the last such path.
   */
  lemma {:induction false} PlaceAllExact(prices: seq<Price>, side: Side, depthSide: seq<Path>, k: nat, key: Key)
    requires k < |prices|
    ensures var m := PlaceAll(EmptyBuckets(prices), prices, side, depthSide)[k].sources;
      && (key in m <==> exists p: nat :: LastPathIn(depthSide, prices, side, k, key, p))
      && forall p: nat :: LastPathIn(depthSide, prices, side, k, key, p) ==>
           key in m && m[key] == LastLanded(depthSide[p], prices, side, k).value
  {
    if depthSide == [] {
    } else {
      var shorter, path := depthSide[..|depthSide| - 1], depthSide[|depthSide| - 1];
      PlaceAllExact(prices, side, shorter, k, key);
      PlacePathExact(PlaceAll(EmptyBuckets(prices), prices, side, shorter), prices, side, SourceKey(path[0]), path);
      LastPathNext(depthSide, prices, side, k, key);
      if SourceKey(path[0]) == key && LastLanded(path, prices, side, k).Some? {
        assert LastPathIn(depthSide, prices, side, k, key, |depthSide| - 1);
      } else if p: nat :| LastPathIn(shorter, prices, side, k, key, p) {
        assert LastPathIn(depthSide, prices, side, k, key, p);
      }
    }
  }

  /** Sources seen so far, so that later phases know every key. */
  ghost predicate KnownKeys(bs: seq<Bucket>, known: seq<Source>) {
    forall i, k :: 0 <= i < |bs| && k in bs[i].sources ==> k.source in known && bs[i].sources[k] > 0.0
  }

  lemma {:induction false} PlaceAllBalanced(bs: seq<Bucket>, prices: seq<Price>, side: Side, depthSide: seq<Path>,
                                            known: seq<Source>)
    requires AllBalanced(bs) && KnownKeys(bs, known)
    requires forall i :: 0 <= i < |depthSide| ==> depthSide[i][0].source in known
    ensures AllBalanced(PlaceAll(bs, prices, side, depthSide))
        && KnownKeys(PlaceAll(bs, prices, side, depthSide), known)
  {
    if depthSide == [] {
    } else {
      var path := depthSide[|depthSide| - 1];
      PlaceAllBalanced(bs, prices, side, depthSide[..|depthSide| - 1], known);
      var mid := PlaceAll(bs, prices, side, depthSide[..|depthSide| - 1]);
      PlacePathExact(mid, prices, side, SourceKey(path[0]), path);
      forall k | 0 <= k < |bs|
        ensures var landed := LastLanded(path, prices, side, k); landed.None? || landed.value > 0.0
      {
        LastLandedPositive(path, prices, side, k);
      }
    }
  }

  lemma {:induction false} LastLandedPositive(path: seq<DepthSample>, prices: seq<Price>, side: Side, k: nat)
    ensures var landed := LastLanded(path, prices, side, k); landed.None? || landed.value > 0.0
  {
    if path == [] {
    } else {
      LastLandedPositive(path[..|path| - 1], prices, side, k);
    }
  }

  lemma PlaceNext(bs: seq<Bucket>, prices: seq<Price>, side: Side, key: Key, path: seq<DepthSample>, j: nat)
    requires j < |path|
    ensures PlacePath(bs, prices, side, key, path[..j + 1])
         == Place(PlacePath(bs, prices, side, key, path[..j]), prices, side, key, path[j])
  {
    assert path[..j + 1][..j] == path[..j];
  }

  /** The inner loop: buckets are updated in place, one sample at a time, and stay balanced. */
  method AllocatePath(buckets: array<Bucket>, prices: seq<Price>, side: Side, samples: Path)
    requires AllBalanced(buckets[..])
    modifies buckets
    ensures buckets[..] == PlacePath(old(buckets[..]), prices, side, SourceKey(samples[0]), samples)
    ensures AllBalanced(buckets[..])
  {
    var key := SourceKey(samples[0]);
    var j := 0;
    while j < |samples|
      invariant 0 <= j <= |samples|
      invariant buckets[..] == PlacePath(old(buckets[..]), prices, side, key, samples[..j]) && AllBalanced(buckets[..])
    {
      PlaceNext(old(buckets[..]), prices, side, key, samples, j);
      var k := Landing(samples[j], prices, side);
      if k.Some? && k.value < buckets.Length {
        AddSampleBalanced(buckets[k.value], key, samples[j].input);
        buckets[k.value] := AddSample(buckets[k.value], key, samples[j].input);
      }
      j := j + 1;
    }
    assert samples[..j] == samples;
  }

  method Allocate(buckets: array<Bucket>, prices: seq<Price>, side: Side, depthSide: seq<Path>)
    requires AllBalanced(buckets[..])
    modifies buckets
    ensures buckets[..] == PlaceAll(old(buckets[..]), prices, side, depthSide)
    ensures AllBalanced(buckets[..])
  {
    var i := 0;
    while i < |depthSide|
      invariant 0 <= i <= |depthSide|
      invariant buckets[..] == PlaceAll(old(buckets[..]), prices, side, depthSide[..i]) && AllBalanced(buckets[..])
    {
      AllocatePath(buckets, prices, side, depthSide[i]);
      assert depthSide[..i + 1][..i] == depthSide[..i];
      i := i + 1;
    }
    assert depthSide[..i] == depthSide;
  }

  // ---- merging pools -----------------------------------------------------------------------

  /** The amounts of one source. */
  function OfSource(m: map<Key, real>, s: Source): map<Key, real> {
    map k | k in m && k.source == s :: m[k]
  }

  /** One plain key per source, holding what all its pools held together. */
  ghost function Merged(m: map<Key, real>): map<Key, real> {
    map p | p in SourceKeys(m) :: SumOf(OfSource(m, p.source))
  }

  function SourceKeys(m: map<Key, real>): set<Key> {
    set k | k in m :: Plain(k.source)
  }

  /** Moves one pool's amount to its source. */
  function MergeKey(m: map<Key, real>, k: Key): map<Key, real>
    requires k in m && k.pool.Some?
  {
    m[Plain(k.source) := if Plain(k.source) in m then m[Plain(k.source)] + m[k] else m[k]] - {k}
  }

  lemma PutDropSum(m: map<Key, real>, p: Key, k: Key)
    requires k in m && p != k
    ensures SumOf(m[p := if p in m then m[p] + m[k] else m[k]] - {k}) == SumOf(m)
  {
    var v := if p in m then m[p] + m[k] else m[k];
    SumPut(m, p, v);
    SumDrop(m[p := v], k);
  }

  lemma MergeKeyOfSource(m: map<Key, real>, k: Key, s: Source)
    requires k in m && k.pool.Some?
    ensures SumOf(OfSource(MergeKey(m, k), s)) == SumOf(OfSource(m, s))
  {
    var p, own := Plain(k.source), OfSource(m, s);
    if s == k.source {
      PutDropSum(own, p, k);
      assert OfSource(MergeKey(m, k), s) == own[p := if p in own then own[p] + own[k] else own[k]] - {k};
    } else {
      assert OfSource(MergeKey(m, k), s) == own;
    }
  }

  lemma MergeKeySum(m: map<Key, real>, k: Key)
    requires k in m && k.pool.Some?
    ensures SumOf(MergeKey(m, k)) == SumOf(m)
  {
    PutDropSum(m, Plain(k.source), k);
  }

  lemma MergeKeyMerged(m: map<Key, real>, k: Key)
    requires k in m && k.pool.Some?
    ensures Merged(MergeKey(m, k)) == Merged(m)
  {
    MergeKeySources(m, k);
    forall s ensures SumOf(OfSource(MergeKey(m, k), s)) == SumOf(OfSource(m, s)) {
      MergeKeyOfSource(m, k, s);
    }
    SameMerged(MergeKey(m, k), m);
  }

  /** One merge neither loses anything nor changes what the merging comes to. */
  lemma MergeKeyKeeps(m: map<Key, real>, k: Key)
    requires k in m && k.pool.Some?
    ensures SumOf(MergeKey(m, k)) == SumOf(m)
    ensures Merged(MergeKey(m, k)) == Merged(m)
  {
    MergeKeySum(m, k);
    MergeKeyMerged(m, k);
  }

  lemma SameMerged(a: map<Key, real>, b: map<Key, real>)
    requires SourceKeys(a) == SourceKeys(b)
    requires forall s :: SumOf(OfSource(a, s)) == SumOf(OfSource(b, s))
    ensures Merged(a) == Merged(b)
  {
    assert Merged(a).Keys == Merged(b).Keys;
    forall p | p in Merged(a) ensures Merged(a)[p] == Merged(b)[p] {
      assert SumOf(OfSource(a, p.source)) == SumOf(OfSource(b, p.source));
    }
  }

  lemma MergeKeySources(m: map<Key, real>, k: Key)
    requires k in m && k.pool.Some?
    ensures SourceKeys(MergeKey(m, k)) == SourceKeys(m)
  {
    var a, b := SourceKeys(MergeKey(m, k)), SourceKeys(m);
    assert Plain(k.source) in MergeKey(m, k);
    forall p | p in b ensures p in a {
      var j :| j in m && Plain(j.source) == p;
      if j != k { assert j in MergeKey(m, k); }
    }
  }

  ghost predicate NoPools(m: map<Key, real>) {
    forall k :: k in m ==> k.pool.None?
  }

  lemma MergedPlain(m: map<Key, real>)
    requires NoPools(m)
    ensures Merged(m) == m
  {
    forall k | k in m ensures SumOf(OfSource(m, k.source)) == m[k] {
      assert OfSource(m, k.source) == map[k := m[k]];
      SumSplit(map[k := m[k]], k);
      assert map[k := m[k]] - {k} == map[];
    }
    forall p ensures p in m <==> p in SourceKeys(m) {
      if p in m { assert p == Plain(p.source); }
    }
  }

  method MergePools(m: map<Key, real>, known: seq<Source>) returns (r: map<Key, real>)
    requires forall k :: k in m ==> k.source in known
    ensures r == Merged(m) && SumOf(r) == SumOf(m) && NoPools(r)
  {
    r := m;
    var left := m.Keys;
    while left != {}
      invariant left <= m.Keys
      invariant Merged(r) == Merged(m) && SumOf(r) == SumOf(m)
      invariant forall k :: k in r && k.pool.Some? ==> k in left
      invariant forall k :: k in left && k.pool.Some? ==> k in r
      invariant forall k :: k in r ==> k.source in known
      decreases left
    {
      var key :| key in left;
      left := left - {key};
      if key.pool.Some? && key.source in known {
        MergeKeyKeeps(r, key);
        r := MergeKey(r, key);
      }
    }
    MergedPlain(r);
  }
}
