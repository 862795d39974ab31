/** The greedy fill of native orders, and why nothing beats it. */
module NativeOrders {
  import opened Sorting
  import opened Rounding

  datatype Side = Sell | Buy

  datatype RawFill = RawFill(input: real, output: real)

  /** Fills come from orders with something to give: the price is a quotient. */
  type Fill = f: RawFill | f.input > 0.0 && f.output >= 0.0 witness RawFill(1.0, 1.0)

  function Rate(f: Fill): (r: real)
    ensures r >= 0.0 && f.input * r == f.output
  {
    f.output / f.input
  }

  /** What `x` of a fill's input buys. */
  function Share(f: Fill, x: real): real {
    x * Rate(f)
  }

  /** `path.sort(...)` with the comparator of the source: highest rate first. */
  function HighestFirst(): (Fill, Fill) -> bool {
    (a: Fill, b: Fill) => Rate(b) <= Rate(a)
  }

  function Reverse<T>(s: seq<T>): (r: seq<T>)
    ensures |r| == |s| && forall i :: 0 <= i < |s| ==> r[i] == s[|s| - 1 - i]
  {
    if s == [] then [] else Reverse(s[1..]) + [s[0]]
  }

  function SortedPath(path: seq<Fill>, side: Side): (r: seq<Fill>)
    ensures |r| == |path|
  {
    var sorted := SortBy(path, HighestFirst());
    if side == Sell then sorted else Reverse(sorted)
  }

  function Min(a: real, b: real): real { if a <= b then a else b }

  function FirstUse(f: Fill, need: real): (x: real)
    ensures 0.0 <= x <= f.input
  {
    if need <= 0.0 then 0.0 else Min(need, f.input)
  }

  /** What the loop takes from each fill when `need` is still to be covered. */
  function Uses(path: seq<Fill>, need: real): (xs: seq<real>)
    ensures |xs| == |path|
  {
    if path == [] then []
    else
      var x := FirstUse(path[0], need);
      [x] + Uses(path[1..], need - x)
  }

  function Sum(xs: seq<real>): real {
    if xs == [] then 0.0 else xs[0] + Sum(xs[1..])
  }

  function Capacity(path: seq<Fill>): (c: real)
    ensures c >= 0.0
  {
    if path == [] then 0.0 else path[0].input + Capacity(path[1..])
  }

  /** The output before rounding. */
  function Value(path: seq<Fill>, xs: seq<real>): real
    requires |xs| == |path|
  {
    if path == [] then 0.0 else Share(path[0], xs[0]) + Value(path[1..], xs[1..])
  }

  /** The output with each fill's share rounded on its own. */
  function RoundedValue(path: seq<Fill>, xs: seq<real>): int
    requires |xs| == |path|
  {
    if path == [] then 0 else RoundHalfUp(Share(path[0], xs[0])) + RoundedValue(path[1..], xs[1..])
  }

  function Sample(path: seq<Fill>, target: real, side: Side): int {
    var sorted := SortedPath(path, side);
    var xs := Uses(sorted, target);
    if Sum(xs) < target then 0 else RoundedValue(sorted, xs)
  }

  predicate Allocation(path: seq<Fill>, xs: seq<real>) {
    |xs| == |path| && forall i :: 0 <= i < |xs| ==> 0.0 <= xs[i] <= path[i].input
  }

  // ---- the loop ----------------------------------------------------------------------------

  lemma {:induction false} UsesNothing(path: seq<Fill>, need: real)
    requires need <= 0.0
    ensures Sum(Uses(path, need)) == 0.0 && RoundedValue(path, Uses(path, need)) == 0
  {
    if path == [] {
    } else {
      UsesNothing(path[1..], need);
      assert Share(path[0], 0.0) == 0.0;
    }
  }

  lemma UsesStep(path: seq<Fill>, i: nat, need: real)
    requires i < |path| && need > 0.0
    ensures var x := Min(need, path[i].input);
      && Sum(Uses(path[i..], need)) == x + Sum(Uses(path[i + 1..], need - x))
      && RoundedValue(path[i..], Uses(path[i..], need))
         == RoundHalfUp(Share(path[i], x)) + RoundedValue(path[i + 1..], Uses(path[i + 1..], need - x))
  {
    assert path[i..][1..] == path[i + 1..];
    var x := Min(need, path[i].input);
    assert Uses(path[i..], need)[1..] == Uses(path[i + 1..], need - x);
  }

  /** What the loop has taken and what is still to come make up the whole. */
  ghost predicate Taken(path: seq<Fill>, target: real, i: nat, totalInput: real, totalOutput: int)
    requires i <= |path|
  {
    && Sum(Uses(path, target)) == totalInput + Sum(Uses(path[i..], target - totalInput))
    && RoundedValue(path, Uses(path, target))
       == totalOutput + RoundedValue(path[i..], Uses(path[i..], target - totalInput))
  }

  lemma TakeNext(path: seq<Fill>, target: real, i: nat, totalInput: real, totalOutput: int)
    requires i < |path| && totalInput < target && Taken(path, target, i, totalInput, totalOutput)
    ensures var x := Min(target - totalInput, path[i].input);
      Taken(path, target, i + 1, totalInput + x, totalOutput + RoundHalfUp(Share(path[i], x)))
  {
    UsesStep(path, i, target - totalInput);
    var x := Min(target - totalInput, path[i].input);
    assert target - totalInput - x == target - (totalInput + x);
  }

  lemma TakenAll(path: seq<Fill>, target: real, i: nat, totalInput: real, totalOutput: int)
    requires i <= |path| && Taken(path, target, i, totalInput, totalOutput)
    requires i == |path| || totalInput >= target
    ensures Sum(Uses(path, target)) == totalInput && RoundedValue(path, Uses(path, target)) == totalOutput
  {
    if i == |path| {
      assert path[i..] == [];
    } else {
      UsesNothing(path[i..], target - totalInput);
    }
  }

  method SortInPlace(path: array<Fill>, side: Side)
    modifies path
    ensures path[..] == SortedPath(old(path[..]), side)
  {
    var sorted := SortedPath(path[..], side);
    forall i | 0 <= i < path.Length {
      path[i] := sorted[i];
    }
    assert path[..] == sorted;
  }

  /** Takes from fill after fill until the target is covered. */
  method TakeFills(path: array<Fill>, target: real) returns (totalInput: real, totalOutput: int)
    ensures totalInput == Sum(Uses(path[..], target)) && totalOutput == RoundedValue(path[..], Uses(path[..], target))
  {
    totalOutput, totalInput := 0, 0.0;
    var i := 0;
    assert path[..][0..] == path[..];
    while i < path.Length && totalInput < target
      invariant 0 <= i <= path.Length
      invariant Taken(path[..], target, i, totalInput, totalOutput)
    {
      TakeNext(path[..], target, i, totalInput, totalOutput);
      var input := Min(target - totalInput, path[i].input);
      totalOutput := totalOutput + RoundHalfUp(Share(path[i], input));
      totalInput := totalInput + input;
      i := i + 1;
    }
    TakenAll(path[..], target, i, totalInput, totalOutput);
  }

  /** Sorts the path in place, fills from it, and gives up the sample if it falls short. */
  method SampleNativeOrders(path: array<Fill>, target: real, side: Side) returns (output: int)
    modifies path
    ensures path[..] == SortedPath(old(path[..]), side)
    ensures output == Sample(old(path[..]), target, side)
  {
    SortInPlace(path, side);
    var totalInput, totalOutput := TakeFills(path, target);
    if totalInput < target {
      return 0;
    }
    return totalOutput;
  }

  // ---- feasibility -------------------------------------------------------------------------

  lemma {:induction false} UsesAllocate(path: seq<Fill>, need: real)
    ensures Allocation(path, Uses(path, need))
  {
    if path == [] {
    } else {
      var x := FirstUse(path[0], need);
      var rest := Uses(path[1..], need - x);
      UsesAllocate(path[1..], need - x);
      AllocationCons(path, x, rest);
    }
  }

  lemma AllocationCons(path: seq<Fill>, x: real, rest: seq<real>)
    requires path != [] && 0.0 <= x <= path[0].input && Allocation(path[1..], rest)
    ensures Allocation(path, [x] + rest)
  {
    forall i | 0 < i < |path| ensures 0.0 <= ([x] + rest)[i] <= path[i].input {
      assert path[1..][i - 1] == path[i];
    }
  }

  lemma SumUses(path: seq<Fill>, need: real)
    requires path != []
    ensures var x := FirstUse(path[0], need); Sum(Uses(path, need)) == x + Sum(Uses(path[1..], need - x))
  {
    var x := FirstUse(path[0], need);
    assert Uses(path, need)[1..] == Uses(path[1..], need - x);
  }

  /** The loop covers exactly what it can. */
  lemma {:induction false} UsesCover(path: seq<Fill>, need: real)
    requires need >= 0.0
    ensures Sum(Uses(path, need)) == Min(need, Capacity(path))
  {
    if path == [] {
    } else {
      SumUses(path, need);
      if need <= path[0].input {
        UsesNothing(path[1..], 0.0);
      } else {
        UsesCover(path[1..], need - path[0].input);
      }
    }
  }

  // ---- a price that proves the greedy choice best ------------------------------------------

  /** `rate` as seen by the side: sellers want it high, buyers low. */
  function Signed(rate: real, side: Side): real {
    if side == Sell then rate else -rate
  }

  function Gain(f: Fill, price: real, side: Side): (g: real)
    ensures g >= 0.0
  {
    var d := Signed(Rate(f), side) - price;
    if d <= 0.0 then 0.0 else GainPositive(f.input, d)
  }

  function GainPositive(x: real, d: real): (g: real)
    requires x >= 0.0 && d >= 0.0
    ensures g >= 0.0
  {
    x * d
  }

  /** What the fills are worth above a given price. */
  function Surplus(path: seq<Fill>, price: real, side: Side): real {
    if path == [] then 0.0 else Gain(path[0], price, side) + Surplus(path[1..], price, side)
  }

  /** What using `x` of a fill is worth above the price. */
  function Edge(f: Fill, x: real, price: real, side: Side): real {
    x * (Signed(Rate(f), side) - price)
  }

  function Margin(path: seq<Fill>, xs: seq<real>, price: real, side: Side): real
    requires |xs| == |path|
  {
    if path == [] then 0.0 else Edge(path[0], xs[0], price, side) + Margin(path[1..], xs[1..], price, side)
  }

  /** What `x` of input costs at the price. */
  function Cost(x: real, price: real): real {
    x * price
  }

  lemma CostAdds(x: real, y: real, price: real)
    ensures Cost(x + y, price) == Cost(x, price) + Cost(y, price)
  {
  }

  lemma SignedAdds(a: real, b: real, side: Side)
    ensures Signed(a + b, side) == Signed(a, side) + Signed(b, side)
  {
  }

  lemma EdgeSplit(f: Fill, x: real, price: real, side: Side)
    ensures Edge(f, x, price, side) == Signed(Share(f, x), side) - Cost(x, price)
  {
  }

  lemma {:induction false} MarginIsValue(path: seq<Fill>, xs: seq<real>, total: real, price: real, side: Side)
    requires |xs| == |path| && total == Sum(xs)
    ensures Margin(path, xs, price, side) == Signed(Value(path, xs), side) - Cost(total, price)
  {
    if path == [] {
    } else {
      EdgeSplit(path[0], xs[0], price, side);
      MarginIsValue(path[1..], xs[1..], total - xs[0], price, side);
      CostAdds(xs[0], total - xs[0], price);
      SignedAdds(Share(path[0], xs[0]), Value(path[1..], xs[1..]), side);
    }
  }

  lemma EdgeBounded(f: Fill, x: real, price: real, side: Side)
    requires 0.0 <= x <= f.input
    ensures Edge(f, x, price, side) <= Gain(f, price, side)
  {
    var d := Signed(Rate(f), side) - price;
    if d > 0.0 {
      assert x * d <= f.input * d;
    }
  }

  /** No allocation earns more than the surplus above any price. */
  lemma {:induction false} AnyAllocationBounded(path: seq<Fill>, xs: seq<real>, price: real, side: Side)
    requires Allocation(path, xs)
    ensures Margin(path, xs, price, side) <= Surplus(path, price, side)
  {
    if path == [] {
    } else {
      EdgeBounded(path[0], xs[0], price, side);
      AnyAllocationBounded(path[1..], xs[1..], price, side);
    }
  }

  ghost predicate BestFirst(path: seq<Fill>, side: Side) {
    forall i, j :: 0 <= i < j < |path| ==> Signed(Rate(path[j]), side) <= Signed(Rate(path[i]), side)
  }

  lemma {:induction false} NoSurplusAtBest(path: seq<Fill>, price: real, side: Side)
    requires forall i :: 0 <= i < |path| ==> Signed(Rate(path[i]), side) <= price
    ensures Surplus(path, price, side) == 0.0
  {
    if path == [] {
    } else {
      NoSurplusAtBest(path[1..], price, side);
    }
  }

  lemma {:induction false} UsesNothingWorth(path: seq<Fill>, need: real, price: real, side: Side)
    requires need <= 0.0
    ensures Margin(path, Uses(path, need), price, side) == 0.0
  {
    if path == [] {
    } else {
      UsesNothingWorth(path[1..], need, price, side);
      assert Edge(path[0], 0.0, price, side) == 0.0;
    }
  }

  lemma NoEdgeAtOwnRate(f: Fill, x: real, side: Side)
    ensures Edge(f, x, Signed(Rate(f), side), side) == 0.0
  {
  }

  lemma FullEdge(f: Fill, price: real, side: Side)
    requires price <= Signed(Rate(f), side)
    ensures Edge(f, f.input, price, side) == Gain(f, price, side)
  {
  }

  /** The greedy fill earns the whole surplus above the rate of the last fill it touches. */
  lemma {:induction false} GreedyMeetsBound(path: seq<Fill>, need: real, side: Side) returns (price: real)
    requires path != [] && BestFirst(path, side) && 0.0 <= need <= Capacity(path)
    ensures Margin(path, Uses(path, need), price, side) == Surplus(path, price, side)
    ensures price <= Signed(Rate(path[0]), side)
  {
    var f, rest := path[0], path[1..];
    if need <= f.input {
      price := Signed(Rate(f), side);
      NoSurplusAtBest(rest, price, side);
      UsesNothingWorth(rest, 0.0, price, side);
      assert Uses(path, need)[1..] == Uses(rest, 0.0);
      NoEdgeAtOwnRate(f, need, side);
    } else {
      price := GreedyMeetsBound(rest, need - f.input, side);
      assert Uses(path, need)[1..] == Uses(rest, need - f.input);
      FullEdge(f, price, side);
    }
  }

  // ---- the surplus does not depend on the order --------------------------------------------

  lemma {:induction false} SurplusInsert(f: Fill, path: seq<Fill>, leq: (Fill, Fill) -> bool, price: real, side: Side)
    ensures Surplus(Insert(f, path, leq), price, side) == Gain(f, price, side) + Surplus(path, price, side)
  {
    if path == [] {
    } else if leq(f, path[0]) {
      assert ([f] + path)[1..] == path;
    } else {
      SurplusInsert(f, path[1..], leq, price, side);
      assert ([path[0]] + Insert(f, path[1..], leq))[1..] == Insert(f, path[1..], leq);
    }
  }

  lemma {:induction false} SurplusSorted(path: seq<Fill>, leq: (Fill, Fill) -> bool, price: real, side: Side)
    ensures Surplus(SortBy(path, leq), price, side) == Surplus(path, price, side)
  {
    if path == [] {
    } else {
      SurplusSorted(path[1..], leq, price, side);
      SurplusInsert(path[0], SortBy(path[1..], leq), leq, price, side);
    }
  }

  lemma {:induction false} SurplusAppend(path: seq<Fill>, f: Fill, price: real, side: Side)
    ensures Surplus(path + [f], price, side) == Surplus(path, price, side) + Gain(f, price, side)
  {
    if path == [] {
      assert [f][1..] == [];
    } else {
      SurplusAppend(path[1..], f, price, side);
      assert (path + [f])[1..] == path[1..] + [f];
    }
  }

  lemma {:induction false} SurplusReversed(path: seq<Fill>, price: real, side: Side)
    ensures Surplus(Reverse(path), price, side) == Surplus(path, price, side)
  {
    if path == [] {
    } else {
      SurplusReversed(path[1..], price, side);
      SurplusAppend(Reverse(path[1..]), path[0], price, side);
    }
  }

  lemma SurplusOfSortedPath(path: seq<Fill>, price: real, side: Side)
    ensures Surplus(SortedPath(path, side), price, side) == Surplus(path, price, side)
  {
    SurplusSorted(path, HighestFirst(), price, side);
    SurplusReversed(SortBy(path, HighestFirst()), price, side);
  }

  lemma HighestFirstIsPreorder()
    ensures TotalPreorder(HighestFirst())
  {
  }

  lemma {:induction false} ReversePermutes<T>(s: seq<T>)
    ensures multiset(Reverse(s)) == multiset(s)
  {
    if s == [] {
    } else {
      ReversePermutes(s[1..]);
      assert s == [s[0]] + s[1..];
    }
  }

  lemma SortedPathBestFirst(path: seq<Fill>, side: Side)
    ensures BestFirst(SortedPath(path, side), side)
    ensures multiset(SortedPath(path, side)) == multiset(path)
  {
    HighestFirstIsPreorder();
    SortByCorrect(path, HighestFirst());
    ReversePermutes(SortBy(path, HighestFirst()));
    var sorted := SortBy(path, HighestFirst());
    forall i, j | 0 <= i < j < |sorted| ensures Rate(sorted[j]) <= Rate(sorted[i]) {
      assert HighestFirst()(sorted[i], sorted[j]);
    }
  }

  // ---- main results ------------------------------------------------------------------------

  /**
   * Selling, no allocation of the same total input over the same fills gives more output than the
   * greedy one; buying, none gives less (`Signed` turns the comparison round).
   */
  lemma GreedyIsOptimal(path: seq<Fill>, target: real, side: Side, xs: seq<real>)
    requires Allocation(path, xs) && Sum(xs) == target
    ensures Signed(Value(path, xs), side)
         <= Signed(Value(SortedPath(path, side), Uses(SortedPath(path, side), target)), side)
  {
    CapacityOfSortedPath(path, side);
    SortedPathBestFirst(path, side);
    forall price ensures Surplus(SortedPath(path, side), price, side) == Surplus(path, price, side) {
      SurplusOfSortedPath(path, price, side);
    }
    BestFirstBeats(path, SortedPath(path, side), side, xs);
  }

  lemma BestFirstBeats(path: seq<Fill>, sorted: seq<Fill>, side: Side, xs: seq<real>)
    requires Allocation(path, xs) && |sorted| == |path| && BestFirst(sorted, side)
    requires Capacity(sorted) == Capacity(path)
    requires forall price :: Surplus(sorted, price, side) == Surplus(path, price, side)
    ensures Signed(Value(path, xs), side) <= Signed(Value(sorted, Uses(sorted, Sum(xs))), side)
  {
    SumWithinCapacity(path, xs);
    UsesCover(sorted, Sum(xs));
    if path != [] {
      var price := GreedyMeetsBound(sorted, Sum(xs), side);
      AnyAllocationBounded(path, xs, price, side);
      MoreMarginIsBetter(path, xs, sorted, Uses(sorted, Sum(xs)), Sum(xs), price, side);
    }
  }

  lemma MoreMarginIsBetter(path: seq<Fill>, xs: seq<real>, other: seq<Fill>, ys: seq<real>, total: real, price: real,
                           side: Side)
    requires |xs| == |path| && |ys| == |other| && Sum(xs) == total && Sum(ys) == total
    requires Margin(path, xs, price, side) <= Margin(other, ys, price, side)
    ensures Signed(Value(path, xs), side) <= Signed(Value(other, ys), side)
  {
    MarginIsValue(path, xs, total, price, side);
    MarginIsValue(other, ys, total, price, side);
  }

  lemma {:induction false} SumWithinCapacity(path: seq<Fill>, xs: seq<real>)
    requires Allocation(path, xs)
    ensures 0.0 <= Sum(xs) <= Capacity(path)
  {
    if path == [] {
    } else {
      SumWithinCapacity(path[1..], xs[1..]);
    }
  }

  /** Capacity is the surplus of unit margins; it too ignores the order. */
  lemma {:induction false} CapacityInsert(f: Fill, path: seq<Fill>, leq: (Fill, Fill) -> bool)
    ensures Capacity(Insert(f, path, leq)) == f.input + Capacity(path)
  {
    if path == [] {
    } else if leq(f, path[0]) {
      assert ([f] + path)[1..] == path;
    } else {
      CapacityInsert(f, path[1..], leq);
      assert ([path[0]] + Insert(f, path[1..], leq))[1..] == Insert(f, path[1..], leq);
    }
  }

  lemma {:induction false} CapacitySorted(path: seq<Fill>, leq: (Fill, Fill) -> bool)
    ensures Capacity(SortBy(path, leq)) == Capacity(path)
  {
    if path == [] {
    } else {
      CapacitySorted(path[1..], leq);
      CapacityInsert(path[0], SortBy(path[1..], leq), leq);
    }
  }

  lemma {:induction false} CapacityAppend(path: seq<Fill>, f: Fill)
    ensures Capacity(path + [f]) == Capacity(path) + f.input
  {
    if path == [] {
      assert [f][1..] == [];
    } else {
      CapacityAppend(path[1..], f);
      assert (path + [f])[1..] == path[1..] + [f];
    }
  }

  lemma {:induction false} CapacityReversed(path: seq<Fill>)
    ensures Capacity(Reverse(path)) == Capacity(path)
  {
    if path == [] {
    } else {
      CapacityReversed(path[1..]);
      CapacityAppend(Reverse(path[1..]), path[0]);
    }
  }

  lemma CapacityOfSortedPath(path: seq<Fill>, side: Side)
    ensures Capacity(SortedPath(path, side)) == Capacity(path)
  {
    CapacitySorted(path, HighestFirst());
    CapacityReversed(SortBy(path, HighestFirst()));
  }

  /** The sample is given up, and reads zero, exactly when the fills cannot cover the target. */
  lemma SampleCoversExactly(path: seq<Fill>, target: real, side: Side)
    requires target >= 0.0
    ensures Sum(Uses(SortedPath(path, side), target)) < target <==> Capacity(path) < target
    ensures Capacity(path) < target ==> Sample(path, target, side) == 0
  {
    UsesCover(SortedPath(path, side), target);
    CapacityOfSortedPath(path, side);
  }

  function Used(xs: seq<real>): nat {
    if xs == [] then 0 else (if xs[0] > 0.0 then 1 else 0) + Used(xs[1..])
  }

  /** Rounding moves the output by at most half a unit for each fill that is used. */
  lemma {:induction false} RoundingError(path: seq<Fill>, xs: seq<real>)
    requires Allocation(path, xs)
    ensures -(Used(xs) as real) / 2.0 <= RoundedValue(path, xs) as real - Value(path, xs) <= Used(xs) as real / 2.0
  {
    if path == [] {
    } else {
      RoundingError(path[1..], xs[1..]);
      var share := Share(path[0], xs[0]);
      if xs[0] > 0.0 {
        RoundIsNearest(share);
      } else {
        assert share == 0.0;
      }
    }
  }

  lemma RoundedUses(path: seq<Fill>, need: real)
    requires path != []
    ensures var x := FirstUse(path[0], need);
      RoundedValue(path, Uses(path, need))
      == RoundHalfUp(Share(path[0], x)) + RoundedValue(path[1..], Uses(path[1..], need - x))
  {
    assert Uses(path, need)[1..] == Uses(path[1..], need - FirstUse(path[0], need));
  }

  lemma {:induction false} UsesMonotone(path: seq<Fill>, less: real, more: real)
    requires less <= more
    ensures RoundedValue(path, Uses(path, less)) <= RoundedValue(path, Uses(path, more))
  {
    if path == [] {
    } else {
      var x, y := FirstUse(path[0], less), FirstUse(path[0], more);
      UsesMonotone(path[1..], less - x, more - y);
      RoundedUses(path, less);
      RoundedUses(path, more);
      ShareMonotone(path[0], x, y);
      RoundMonotone(Share(path[0], x), Share(path[0], y));
    }
  }

  lemma ShareMonotone(f: Fill, x: real, y: real)
    requires x <= y
    ensures Share(f, x) <= Share(f, y)
  {
  }

  /** Among targets the fills can cover, a larger one never yields less, rounding included. */
  lemma SampleMonotone(path: seq<Fill>, less: real, more: real, side: Side)
    requires less <= more <= Capacity(path)
    ensures Sample(path, less, side) <= Sample(path, more, side)
  {
    var sorted := SortedPath(path, side);
    UsesMonotone(sorted, less, more);
    if more >= 0.0 {
      SampleCoversExactly(path, more, side);
    } else {
      UsesNothing(sorted, more);
    }
    if less >= 0.0 {
      SampleCoversExactly(path, less, side);
    } else {
      UsesNothing(sorted, less);
    }
  }

  /**
   * The rounded sample against any other way to spend the same input: it falls short of the best
   * output (or, buying, exceeds the least) by at most half a unit for each fill it used.
   */
  lemma SampleNearlyOptimal(path: seq<Fill>, target: real, side: Side, xs: seq<real>)
    requires Allocation(path, xs) && Sum(xs) == target
    ensures var used := Used(Uses(SortedPath(path, side), target));
      Signed(Value(path, xs), side) <= Signed(Sample(path, target, side) as real, side) + used as real / 2.0
  {
    var sorted := SortedPath(path, side);
    SumWithinCapacity(path, xs);
    SampleCoversExactly(path, target, side);
    UsesAllocate(sorted, target);
    GreedyIsOptimal(path, target, side, xs);
    RoundingError(sorted, Uses(sorted, target));
  }
}
