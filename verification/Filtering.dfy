/** `filter`, and what it keeps told by positions. */
module Filtering {

  function Filter<T(!new)>(items: seq<T>, keep: T -> bool): (kept: seq<T>)
    ensures forall x :: x in kept <==> x in items && keep(x)
  {
    if items == [] then []
    else
      var last := items[|items| - 1];
      var before := Filter(items[..|items| - 1], keep);
      assert items == items[..|items| - 1] + [last];
      if keep(last) then before + [last] else before
  }

  /** `at` lists, in order, exactly the positions that hold something of the kind kept. */
  ghost predicate Positions<T(!new)>(items: seq<T>, keep: T -> bool, at: seq<nat>) {
    && (forall i, j :: 0 <= i < j < |at| ==> at[i] < at[j])
    && (forall j :: 0 <= j < |at| ==> at[j] < |items|)
    && (forall i {:trigger i in at} :: 0 <= i < |items| ==> (i in at <==> keep(items[i])))
  }

  /** `kept` is what stands at those positions. */
  ghost predicate StandsAt<T>(items: seq<T>, at: seq<nat>, kept: seq<T>) {
    |kept| == |at| && forall j :: 0 <= j < |at| ==> at[j] < |items| && kept[j] == items[at[j]]
  }

  lemma PositionsNext<T(!new)>(items: seq<T>, keep: T -> bool, before: seq<nat>)
    requires items != [] && Positions(items[..|items| - 1], keep, before)
    ensures Positions(items, keep, if keep(items[|items| - 1]) then before + [|items| - 1] else before)
  {
    var n, shorter := |items| - 1, items[..|items| - 1];
    forall i | 0 <= i < n ensures i in before <==> keep(items[i]) {
      assert shorter[i] == items[i];
    }
    assert n !in before;
  }

  lemma StandsAtNext<T>(items: seq<T>, before: seq<nat>, kept: seq<T>)
    requires items != [] && StandsAt(items[..|items| - 1], before, kept)
    ensures StandsAt(items, before, kept)
    ensures StandsAt(items, before + [|items| - 1], kept + [items[|items| - 1]])
  {
  }

  lemma {:induction false} FilterPositions<T(!new)>(items: seq<T>, keep: T -> bool) returns (at: seq<nat>)
    ensures Positions(items, keep, at) && StandsAt(items, at, Filter(items, keep))
  {
    if items == [] {
      at := [];
    } else {
      var before := FilterPositions(items[..|items| - 1], keep);
      PositionsNext(items, keep, before);
      StandsAtNext(items, before, Filter(items[..|items| - 1], keep));
      at := if keep(items[|items| - 1]) then before + [|items| - 1] else before;
    }
  }

  /** Position `i` is the first that holds something of the kind. */
  ghost predicate First<T(!new)>(items: seq<T>, keep: T -> bool, i: nat) {
    i < |items| && keep(items[i]) && forall j :: 0 <= j < i ==> !keep(items[j])
  }
}
