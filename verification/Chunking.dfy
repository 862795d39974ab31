/** `chunkByByteLength`: cutting a list into chunks whose serialised items fit a byte limit. */
module Chunking {

  function Total<T>(items: seq<T>, size: T -> nat): nat {
    if items == [] then 0 else size(items[0]) + Total(items[1..], size)
  }

  ghost predicate AllFit<T>(items: seq<T>, size: T -> nat, max: nat) {
    forall i :: 0 <= i < |items| ==> size(items[i]) <= max
  }

  function Flatten<T>(chunks: seq<seq<T>>): seq<T> {
    if chunks == [] then [] else chunks[0] + Flatten(chunks[1..])
  }

  // ---- the loop as a step ------------------------------------------------------------------

  datatype Loop<T> = Loop(rest: seq<T>, chunked: seq<seq<T>>, chunk: seq<T>, used: nat)

  /** One turn of the `while` loop. */
  function Step<T>(l: Loop<T>, size: T -> nat, max: nat): Loop<T> {
    if l.rest == [] then l
    else if l.used + size(l.rest[0]) > max then Loop(l.rest, l.chunked + [l.chunk], [], 0)
    else Loop(l.rest[1..], l.chunked, l.chunk + [l.rest[0]], l.used + size(l.rest[0]))
  }

  function Turns<T>(l: Loop<T>, size: T -> nat, max: nat, n: nat): Loop<T>
    decreases n
  {
    if n == 0 then l else Turns(Step(l, size, max), size, max, n - 1)
  }

  function Start<T>(items: seq<T>): Loop<T> { Loop(items, [], [], 0) }

  lemma {:induction false} OversizedStays<T>(l: Loop<T>, size: T -> nat, max: nat, n: nat)
    requires !AllFit(l.rest, size, max)
    ensures !AllFit(Turns(l, size, max, n).rest, size, max)
    decreases n
  {
    if n == 0 {
    } else {
      var i :| 0 <= i < |l.rest| && size(l.rest[i]) > max;
      var next := Step(l, size, max);
      if next.rest != l.rest {
        assert next.rest[i - 1] == l.rest[i];
      }
      OversizedStays(next, size, max, n - 1);
    }
  }

  lemma {:induction false} FittingFinishes<T>(l: Loop<T>, size: T -> nat, max: nat) returns (n: nat)
    requires AllFit(l.rest, size, max) && (l.chunk == [] ==> l.used == 0)
    ensures Turns(l, size, max, n).rest == []
    decreases |l.rest|, |l.chunk|
  {
    if l.rest == [] {
      n := 0;
    } else {
      var m := FittingFinishes(Step(l, size, max), size, max);
      n := m + 1;
    }
  }

  /** The loop ends exactly when every item fits on its own. */
  lemma TerminatesExactly<T>(items: seq<T>, size: T -> nat, max: nat)
    ensures (exists n: nat :: Turns(Start(items), size, max, n).rest == []) <==> AllFit(items, size, max)
  {
    if AllFit(items, size, max) {
      var n := FittingFinishes(Start(items), size, max);
    } else {
      forall n: nat ensures Turns(Start(items), size, max, n).rest != [] {
        OversizedStays(Start(items), size, max, n);
      }
    }
  }

  // ---- what it computes --------------------------------------------------------------------

  /** How many of the next items still go into a chunk with `used` bytes. */
  function Taken<T>(items: seq<T>, used: nat, size: T -> nat, max: nat): (n: nat)
    ensures n <= |items|
  {
    if items == [] || used + size(items[0]) > max then 0
    else 1 + Taken(items[1..], used + size(items[0]), size, max)
  }

  lemma FirstTaken<T>(items: seq<T>, size: T -> nat, max: nat)
    requires items != [] && AllFit(items, size, max)
    ensures Taken(items, 0, size, max) > 0
  {
  }

  /** Each chunk takes as many items as fit. */
  function Greedy<T>(items: seq<T>, size: T -> nat, max: nat): (chunks: seq<seq<T>>)
    requires AllFit(items, size, max)
    decreases |items|
  {
    if items == [] then []
    else
      var n := Taken(items, 0, size, max);
      FirstTaken(items, size, max);
      [items[..n]] + Greedy(items[n..], size, max)
  }

  /** What is still to come when a chunk is open. */
  function Pending<T>(rest: seq<T>, chunk: seq<T>, used: nat, size: T -> nat, max: nat): seq<seq<T>>
    requires AllFit(rest, size, max)
  {
    var n := Taken(rest, used, size, max);
    (if chunk + rest[..n] == [] then [] else [chunk + rest[..n]]) + Greedy(rest[n..], size, max)
  }

  lemma PendingStart<T>(items: seq<T>, size: T -> nat, max: nat)
    requires AllFit(items, size, max)
    ensures Pending(items, [], 0, size, max) == Greedy(items, size, max)
  {
    var n := Taken(items, 0, size, max);
    assert [] + items[..n] == items[..n];
    if items != [] {
      FirstTaken(items, size, max);
    }
  }

  lemma PendingTake<T>(rest: seq<T>, chunk: seq<T>, used: nat, size: T -> nat, max: nat)
    requires AllFit(rest, size, max) && rest != [] && used + size(rest[0]) <= max
    ensures Pending(rest, chunk, used, size, max)
         == Pending(rest[1..], chunk + [rest[0]], used + size(rest[0]), size, max)
  {
    var n := Taken(rest[1..], used + size(rest[0]), size, max);
    assert rest[..n + 1] == [rest[0]] + rest[1..][..n];
    assert chunk + rest[..n + 1] == chunk + [rest[0]] + rest[1..][..n];
    assert rest[n + 1..] == rest[1..][n..];
  }

  lemma PendingClose<T>(rest: seq<T>, chunk: seq<T>, used: nat, size: T -> nat, max: nat)
    requires AllFit(rest, size, max) && rest != [] && used + size(rest[0]) > max && chunk != []
    ensures Pending(rest, chunk, used, size, max) == [chunk] + Pending(rest, [], 0, size, max)
  {
    PendingStart(rest, size, max);
    assert chunk + rest[..0] == chunk && rest[0..] == rest;
  }

  method ChunkByByteLength<T>(items: seq<T>, size: T -> nat, max: nat) returns (chunkedItems: seq<seq<T>>)
    requires AllFit(items, size, max)
    ensures chunkedItems == Greedy(items, size, max)
  {
    var itemsClone := items;
    chunkedItems := [];
    var currChunk: seq<T> := [];
    var currentChunkTotalLength := 0;
    PendingStart(items, size, max);
    while |itemsClone| != 0
      invariant AllFit(itemsClone, size, max) && currentChunkTotalLength >= 0
      invariant currChunk == [] ==> currentChunkTotalLength == 0
      invariant Greedy(items, size, max)
          == chunkedItems + Pending(itemsClone, currChunk, currentChunkTotalLength, size, max)
      decreases |itemsClone|, |currChunk|
    {
      var item := itemsClone[0];
      var currLength := size(item);
      if currentChunkTotalLength + currLength > max {
        PendingClose(itemsClone, currChunk, currentChunkTotalLength, size, max);
        chunkedItems := chunkedItems + [currChunk];
        currChunk := [];
        currentChunkTotalLength := 0;
      } else {
        PendingTake(itemsClone, currChunk, currentChunkTotalLength, size, max);
        currChunk := currChunk + [item];
        currentChunkTotalLength := currentChunkTotalLength + currLength;
        itemsClone := itemsClone[1..];
      }
    }
    assert currChunk + itemsClone[..0] == currChunk;
    if |currChunk| != 0 {
      chunkedItems := chunkedItems + [currChunk];
    }
  }

  // ---- what is good about it ---------------------------------------------------------------

  lemma {:induction false} TakenFits<T>(items: seq<T>, used: nat, size: T -> nat, max: nat)
    requires used <= max
    ensures used + Total(items[..Taken(items, used, size, max)], size) <= max
  {
    if items != [] && used + size(items[0]) <= max {
      TakenFits(items[1..], used + size(items[0]), size, max);
      var n := Taken(items, used, size, max);
      assert items[..n][1..] == items[1..][..n - 1];
    }
  }

  ghost predicate Within<T>(chunks: seq<seq<T>>, size: T -> nat, max: nat) {
    forall i :: 0 <= i < |chunks| ==> chunks[i] != [] && Total(chunks[i], size) <= max
  }

  lemma FlattenCons<T>(head: seq<T>, chunks: seq<seq<T>>)
    ensures Flatten([head] + chunks) == head + Flatten(chunks)
  {
    assert ([head] + chunks)[1..] == chunks;
  }

  lemma {:induction false} FlattenSnoc<T>(chunks: seq<seq<T>>, last: seq<T>)
    ensures Flatten(chunks + [last]) == Flatten(chunks) + last
  {
    if chunks == [] {
      assert Flatten([last]) == last + Flatten([]);
    } else {
      FlattenSnoc(chunks[1..], last);
      assert (chunks + [last])[1..] == chunks[1..] + [last];
    }
  }

  lemma {:induction false} GreedyFlattens<T>(items: seq<T>, size: T -> nat, max: nat)
    requires AllFit(items, size, max)
    ensures Flatten(Greedy(items, size, max)) == items
    decreases |items|
  {
    if items == [] {
    } else {
      var n := Taken(items, 0, size, max);
      FirstTaken(items, size, max);
      GreedyFlattens(items[n..], size, max);
      FlattenCons(items[..n], Greedy(items[n..], size, max));
      assert items[..n] + items[n..] == items;
    }
  }

  lemma WithinCons<T>(head: seq<T>, chunks: seq<seq<T>>, size: T -> nat, max: nat)
    requires head != [] && Total(head, size) <= max && Within(chunks, size, max)
    ensures Within([head] + chunks, size, max)
  {
  }

  lemma {:induction false} GreedyWithin<T>(items: seq<T>, size: T -> nat, max: nat)
    requires AllFit(items, size, max)
    ensures Within(Greedy(items, size, max), size, max)
    decreases |items|
  {
    if items == [] {
    } else {
      var n := Taken(items, 0, size, max);
      FirstTaken(items, size, max);
      GreedyWithin(items[n..], size, max);
      TakenFits(items, 0, size, max);
      WithinCons(items[..n], Greedy(items[n..], size, max), size, max);
    }
  }

  /** Nothing is lost or reordered, no chunk is empty, and every chunk is within the limit. */
  lemma GreedySound<T>(items: seq<T>, size: T -> nat, max: nat)
    requires AllFit(items, size, max)
    ensures Flatten(Greedy(items, size, max)) == items
    ensures Within(Greedy(items, size, max), size, max)
  {
    GreedyFlattens(items, size, max);
    GreedyWithin(items, size, max);
  }

  lemma {:induction false} TakenMost<T>(items: seq<T>, m: nat, used: nat, size: T -> nat, max: nat)
    requires m <= |items| && used + Total(items[..m], size) <= max
    ensures m <= Taken(items, used, size, max)
  {
    if m == 0 {
    } else {
      assert items[..m][1..] == items[1..][..m - 1];
      TakenMost(items[1..], m - 1, used + size(items[0]), size, max);
    }
  }

  lemma {:induction false} TotalOfSuffix<T>(s: seq<T>, k: nat, size: T -> nat)
    requires k <= |s|
    ensures Total(s[k..], size) <= Total(s, size)
  {
    if k == 0 {
    } else {
      TotalOfSuffix(s[1..], k - 1, size);
      assert s[1..][k - 1..] == s[k..];
    }
  }

  /**
   * No way to cut the list in order within the limit, or any longer list that ends with it, uses
   * fewer chunks.
   */
  lemma {:induction false} GreedyFewest<T>(items: seq<T>, size: T -> nat, max: nat, split: seq<seq<T>>, k: nat)
    requires AllFit(items, size, max) && k <= |Flatten(split)| && Flatten(split)[k..] == items
    requires forall i :: 0 <= i < |split| ==> Total(split[i], size) <= max
    ensures |Greedy(items, size, max)| <= |split|
    decreases |split|
  {
    if items == [] {
    } else {
      var head, tail := split[0], Flatten(split[1..]);
      var n := if k >= |head| then 0 else Taken(items, 0, size, max);
      if k < |head| {
        TakesHead(items, head, tail, k, size, max);
      }
      DropPast(head, tail, k, n);
      GreedyFewest(items[n..], size, max, split[1..], k + n - |head|);
      assert items[0..] == items;
    }
  }

  lemma DropPast<T>(head: seq<T>, tail: seq<T>, k: nat, n: nat)
    requires |head| <= k + n <= |head| + |tail|
    ensures (head + tail)[k..][n..] == tail[k + n - |head|..]
  {
  }

  /** A greedy chunk reaches at least to the end of any cut that fits. */
  lemma TakesHead<T>(items: seq<T>, head: seq<T>, tail: seq<T>, k: nat, size: T -> nat, max: nat)
    requires k < |head| && items == (head + tail)[k..] && Total(head, size) <= max
    ensures |head| - k <= Taken(items, 0, size, max)
  {
    assert items[..|head| - k] == head[k..];
    TotalOfSuffix(head, k, size);
    TakenMost(items, |head| - k, 0, size, max);
  }

  /** In particular, none of the list itself. */
  lemma ChunksAreFewest<T>(items: seq<T>, size: T -> nat, max: nat, split: seq<seq<T>>)
    requires AllFit(items, size, max) && Flatten(split) == items
    requires forall i :: 0 <= i < |split| ==> Total(split[i], size) <= max
    ensures |Greedy(items, size, max)| <= |split|
  {
    assert Flatten(split)[0..] == items;
    GreedyFewest(items, size, max, split, 0);
  }

  lemma {:induction false} TakenStops<T>(items: seq<T>, used: nat, size: T -> nat, max: nat)
    ensures var n := Taken(items, used, size, max);
      n < |items| ==> used + Total(items[..n], size) + size(items[n]) > max
  {
    if items == [] || used + size(items[0]) > max {
    } else {
      var n := Taken(items[1..], used + size(items[0]), size, max);
      TakenStops(items[1..], used + size(items[0]), size, max);
      assert items[..n + 1][1..] == items[1..][..n];
    }
  }

  /** A chunk is closed only when the next item does not fit into it. */
  lemma {:induction false} ChunksAreFull<T>(items: seq<T>, size: T -> nat, max: nat, i: nat)
    requires AllFit(items, size, max) && i + 1 < |Greedy(items, size, max)|
    ensures Greedy(items, size, max)[i + 1] != []
    ensures Total(Greedy(items, size, max)[i], size) + size(Greedy(items, size, max)[i + 1][0]) > max
    decreases i
  {
    var n := Taken(items, 0, size, max);
    FirstTaken(items, size, max);
    if i == 0 {
      TakenStops(items, 0, size, max);
      FirstTaken(items[n..], size, max);
      assert Greedy(items, size, max)[1][0] == items[n];
    } else {
      ChunksAreFull(items[n..], size, max, i - 1);
    }
  }

  /** lodash `chunk`: chunks of a fixed number of items. */
  function ChunkBy<T>(items: seq<T>, n: nat): (chunks: seq<seq<T>>)
    requires n > 0
    decreases |items|
  {
    if items == [] then []
    else
      var m := if |items| < n then |items| else n;
      [items[..m]] + ChunkBy(items[m..], n)
  }

  /** Every chunk is full but the last, which is not empty. */
  ghost predicate Sized<T>(chunks: seq<seq<T>>, n: nat) {
    forall i :: 0 <= i < |chunks| ==> 0 < |chunks[i]| <= n && (i < |chunks| - 1 ==> |chunks[i]| == n)
  }

  lemma {:induction false} ChunkBySound<T>(items: seq<T>, n: nat)
    requires n > 0
    ensures Flatten(ChunkBy(items, n)) == items
    ensures Sized(ChunkBy(items, n), n)
    decreases |items|
  {
    if items == [] {
    } else {
      var m := if |items| < n then |items| else n;
      ChunkBySound(items[m..], n);
      FlattenCons(items[..m], ChunkBy(items[m..], n));
      assert items == items[..m] + items[m..];
    }
  }
}
