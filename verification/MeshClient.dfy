/** Posting orders to Mesh in chunks, over either transport. */
module MeshClient {
  import opened Wrappers
  import opened Orders
  import opened Chunking

  /** How Mesh answers one chunk. A reply cut off after the accepted orders throws half way. */
  datatype Reply =
    | Failed
    | Answered(accepted: seq<OrderInfo>, rejected: seq<OrderInfo>)
    | Truncated(partial: seq<OrderInfo>)

  datatype Results = Results(accepted: seq<OrderInfo>, rejected: seq<OrderInfo>)

  const MESH_ORDERS_BATCH_SIZE := 200
  const MESH_ORDERS_BATCH_HTTP_BYTE_LENGTH := 2500000

  function Hashes(infos: seq<OrderInfo>): (hs: seq<Hash>)
    ensures |hs| == |infos| && forall i :: 0 <= i < |infos| ==> hs[i] == infos[i].orderHash
  {
    seq(|infos|, i requires 0 <= i < |infos| => infos[i].orderHash)
  }

  function OrderHashes(orders: seq<Order>, hashOf: Order -> Hash): (hs: seq<Hash>)
    ensures |hs| == |orders| && forall i :: 0 <= i < |orders| ==> hs[i] == hashOf(orders[i])
  {
    seq(|orders|, i requires 0 <= i < |orders| => hashOf(orders[i]))
  }

  /** Mesh answers each order of a delivered chunk once. */
  ghost predicate AnswersOnce(reply: Reply, chunk: seq<Order>, hashOf: Order -> Hash) {
    reply.Answered? ==>
      multiset(Hashes(reply.accepted)) + multiset(Hashes(reply.rejected)) == multiset(OrderHashes(chunk, hashOf))
  }

  /** Mesh may answer or fail as it likes, from one call to the next. */
  type Mesh = (nat, seq<Order>) -> Reply

  ghost predicate Reliable(mesh: Mesh, hashOf: Order -> Hash) {
    forall i, chunk :: AnswersOnce(mesh(i, chunk), chunk, hashOf)
  }

  /** When a chunk cannot be validated every order of the call is rejected, not only the chunk's. */
  function RejectAll(orders: seq<Order>, hashOf: Order -> Hash): (infos: seq<OrderInfo>)
    ensures Hashes(infos) == OrderHashes(orders, hashOf)
  {
    seq(|orders|, i requires 0 <= i < |orders| => OrderInfo(hashOf(orders[i]), orders[i], None))
  }

  function Reported(r: Results): multiset<Hash> {
    multiset(Hashes(r.accepted)) + multiset(Hashes(r.rejected))
  }

  lemma HashesAppend(a: seq<OrderInfo>, b: seq<OrderInfo>)
    ensures Hashes(a + b) == Hashes(a) + Hashes(b)
  {
  }

  lemma ReportedAppend(r: Results, accepted: seq<OrderInfo>, rejected: seq<OrderInfo>)
    ensures Reported(Results(r.accepted + accepted, r.rejected + rejected))
         == Reported(r) + multiset(Hashes(accepted)) + multiset(Hashes(rejected))
  {
    HashesAppend(r.accepted, accepted);
    HashesAppend(r.rejected, rejected);
  }

  lemma {:induction false} FlattenHashes(chunks: seq<seq<Order>>, i: nat, hashOf: Order -> Hash)
    requires i < |chunks|
    ensures multiset(OrderHashes(Flatten(chunks[..i + 1]), hashOf))
         == multiset(OrderHashes(Flatten(chunks[..i]), hashOf)) + multiset(OrderHashes(chunks[i], hashOf))
  {
    FlattenSnoc(chunks[..i], chunks[i]);
    assert chunks[..i + 1] == chunks[..i] + [chunks[i]];
    assert OrderHashes(Flatten(chunks[..i]) + chunks[i], hashOf)
        == OrderHashes(Flatten(chunks[..i]), hashOf) + OrderHashes(chunks[i], hashOf);
  }

  predicate NoneFails(mesh: Mesh, chunks: seq<seq<Order>>, n: nat)
    requires n <= |chunks|
  {
    forall i :: 0 <= i < n ==> mesh(i, chunks[i]).Answered?
  }

  predicate AllDelivered(mesh: Mesh, chunks: seq<seq<Order>>) {
    NoneFails(mesh, chunks, |chunks|)
  }

  // ---- verdicts ----------------------------------------------------------------------------

  /** What one reply adds to the accepted orders: a reply cut off half way has been read that far. */
  function AcceptedIn(reply: Reply): seq<OrderInfo> {
    match reply
    case Answered(accepted, _) => accepted
    case Truncated(partial) => partial
    case Failed => []
  }

  /** What it adds to the rejected ones: a failure of any kind rejects every order of the call. */
  function RejectedIn(reply: Reply, orders: seq<Order>, hashOf: Order -> Hash): seq<OrderInfo> {
    if reply.Answered? then reply.rejected else RejectAll(orders, hashOf)
  }

  function AcceptedBy(mesh: Mesh, chunks: seq<seq<Order>>): (lists: seq<seq<OrderInfo>>)
    ensures |lists| == |chunks|
  {
    seq(|chunks|, i requires 0 <= i < |chunks| => AcceptedIn(mesh(i, chunks[i])))
  }

  function RejectedBy(mesh: Mesh, chunks: seq<seq<Order>>, orders: seq<Order>, hashOf: Order -> Hash)
    : (lists: seq<seq<OrderInfo>>)
    ensures |lists| == |chunks|
  {
    seq(|chunks|, i requires 0 <= i < |chunks| => RejectedIn(mesh(i, chunks[i]), orders, hashOf))
  }

  /** The verdicts Mesh gave on the chunks of a call: the lists of its replies, one after the other. */
  function Verdicts(mesh: Mesh, chunks: seq<seq<Order>>, orders: seq<Order>, hashOf: Order -> Hash): Results {
    Results(Flatten(AcceptedBy(mesh, chunks)), Flatten(RejectedBy(mesh, chunks, orders, hashOf)))
  }

  lemma VerdictsNext(mesh: Mesh, chunks: seq<seq<Order>>, i: nat, orders: seq<Order>, hashOf: Order -> Hash)
    requires i < |chunks|
    ensures var before := Verdicts(mesh, chunks[..i], orders, hashOf);
      Verdicts(mesh, chunks[..i + 1], orders, hashOf)
      == Results(before.accepted + AcceptedIn(mesh(i, chunks[i])),
                 before.rejected + RejectedIn(mesh(i, chunks[i]), orders, hashOf))
  {
    assert AcceptedBy(mesh, chunks[..i + 1]) == AcceptedBy(mesh, chunks[..i]) + [AcceptedIn(mesh(i, chunks[i]))];
    FlattenSnoc(AcceptedBy(mesh, chunks[..i]), AcceptedIn(mesh(i, chunks[i])));
    assert RejectedBy(mesh, chunks[..i + 1], orders, hashOf)
        == RejectedBy(mesh, chunks[..i], orders, hashOf) + [RejectedIn(mesh(i, chunks[i]), orders, hashOf)];
    FlattenSnoc(RejectedBy(mesh, chunks[..i], orders, hashOf), RejectedIn(mesh(i, chunks[i]), orders, hashOf));
  }

  /** Delivered chunks report each of their orders exactly once. */
  lemma {:induction false} DeliveredReportsOnce(mesh: Mesh, chunks: seq<seq<Order>>, n: nat, orders: seq<Order>,
                                                hashOf: Order -> Hash)
    requires Reliable(mesh, hashOf) && n <= |chunks| && NoneFails(mesh, chunks, n)
    ensures Reported(Verdicts(mesh, chunks[..n], orders, hashOf))
         == multiset(OrderHashes(Flatten(chunks[..n]), hashOf))
  {
    if n == 0 {
      assert chunks[..0] == [];
    } else {
      DeliveredReportsOnce(mesh, chunks, n - 1, orders, hashOf);
      VerdictsNext(mesh, chunks, n - 1, orders, hashOf);
      FlattenHashes(chunks, n - 1, hashOf);
      var before, reply := Verdicts(mesh, chunks[..n - 1], orders, hashOf), mesh(n - 1, chunks[n - 1]);
      assert AnswersOnce(reply, chunks[n - 1], hashOf);
      ReportedAppend(before, reply.accepted, reply.rejected);
    }
  }

  /** Hashes reported by either list are reported by both together. */
  lemma ReportedByEither(a: seq<OrderInfo>, b: seq<OrderInfo>, all: multiset<Hash>)
    requires all <= multiset(Hashes(a)) || all <= multiset(Hashes(b))
    ensures all <= multiset(Hashes(a + b))
  {
    HashesAppend(a, b);
    assert multiset(Hashes(a) + Hashes(b)) == multiset(Hashes(a)) + multiset(Hashes(b));
  }

  /** One chunk that fails, in whatever way, rejects every order of the call. */
  lemma {:induction false} FailureRejectsAll(mesh: Mesh, chunks: seq<seq<Order>>, n: nat, orders: seq<Order>,
                                             hashOf: Order -> Hash)
    requires n <= |chunks| && !NoneFails(mesh, chunks, n)
    ensures multiset(OrderHashes(orders, hashOf))
         <= multiset(Hashes(Verdicts(mesh, chunks[..n], orders, hashOf).rejected))
  {
    var before := Verdicts(mesh, chunks[..n - 1], orders, hashOf).rejected;
    var last := RejectedIn(mesh(n - 1, chunks[n - 1]), orders, hashOf);
    assert Verdicts(mesh, chunks[..n], orders, hashOf).rejected == before + last by {
      VerdictsNext(mesh, chunks, n - 1, orders, hashOf);
    }
    if !NoneFails(mesh, chunks, n - 1) {
      FailureRejectsAll(mesh, chunks, n - 1, orders, hashOf);
    } else {
      assert Hashes(last) == OrderHashes(orders, hashOf);
    }
    ReportedByEither(before, last, multiset(OrderHashes(orders, hashOf)));
  }

  /**
   * Whatever fails, the verdicts report every submitted order; if nothing does, each exactly once;
   * if something does, each is rejected.
   */
  lemma VerdictsComplete(mesh: Mesh, chunks: seq<seq<Order>>, orders: seq<Order>, hashOf: Order -> Hash)
    requires Reliable(mesh, hashOf) && Flatten(chunks) == orders
    ensures multiset(OrderHashes(orders, hashOf)) <= Reported(Verdicts(mesh, chunks, orders, hashOf))
    ensures AllDelivered(mesh, chunks) ==>
      Reported(Verdicts(mesh, chunks, orders, hashOf)) == multiset(OrderHashes(orders, hashOf))
    ensures !AllDelivered(mesh, chunks) ==>
      multiset(OrderHashes(orders, hashOf)) <= multiset(Hashes(Verdicts(mesh, chunks, orders, hashOf).rejected))
  {
    assert chunks[..|chunks|] == chunks;
    if AllDelivered(mesh, chunks) {
      DeliveredReportsOnce(mesh, chunks, |chunks|, orders, hashOf);
    } else {
      FailureRejectsAll(mesh, chunks, |chunks|, orders, hashOf);
    }
  }

  lemma {:induction false} InFlatten<T>(chunks: seq<seq<T>>, k: nat, x: T)
    requires k < |chunks| && x in chunks[k]
    ensures x in Flatten(chunks)
  {
    if k == 0 {
    } else {
      InFlatten(chunks[1..], k - 1, x);
    }
  }

  lemma {:induction false} FromFlatten<T>(chunks: seq<seq<T>>, x: T) returns (k: nat)
    requires x in Flatten(chunks)
    ensures k < |chunks| && x in chunks[k]
  {
    if x in chunks[0] {
      k := 0;
    } else {
      var m := FromFlatten(chunks[1..], x);
      k := m + 1;
    }
  }

  /** An order that was not rejected was accepted in the reply to the very chunk that carried it. */
  lemma AcceptedWhereCarried(mesh: Mesh, chunks: seq<seq<Order>>, orders: seq<Order>, hashOf: Order -> Hash, o: Order)
    returns (k: nat, i: OrderInfo)
    requires Reliable(mesh, hashOf) && Flatten(chunks) == orders && o in orders
    requires hashOf(o) !in Hashes(Verdicts(mesh, chunks, orders, hashOf).rejected)
    ensures k < |chunks| && o in chunks[k] && mesh(k, chunks[k]).Answered?
    ensures i in mesh(k, chunks[k]).accepted && i.orderHash == hashOf(o)
    ensures i in Verdicts(mesh, chunks, orders, hashOf).accepted
  {
    var n :| 0 <= n < |orders| && orders[n] == o;
    assert OrderHashes(orders, hashOf)[n] == hashOf(o);
    assert hashOf(o) in multiset(OrderHashes(orders, hashOf));
    VerdictsComplete(mesh, chunks, orders, hashOf);
    k := FromFlatten(chunks, o);
    var reply := mesh(k, chunks[k]);
    assert AllDelivered(mesh, chunks);
    assert AnswersOnce(reply, chunks[k], hashOf);
    var m :| 0 <= m < |chunks[k]| && chunks[k][m] == o;
    assert OrderHashes(chunks[k], hashOf)[m] == hashOf(o);
    assert hashOf(o) in multiset(OrderHashes(chunks[k], hashOf));
    if hashOf(o) in Hashes(reply.rejected) {
      RejectionIsReported(mesh, chunks, orders, hashOf, k, hashOf(o));
    }
    i := InHashes(reply.accepted, hashOf(o));
    assert AcceptedBy(mesh, chunks)[k] == reply.accepted;
    InFlatten(AcceptedBy(mesh, chunks), k, i);
  }

  lemma RejectionIsReported(mesh: Mesh, chunks: seq<seq<Order>>, orders: seq<Order>, hashOf: Order -> Hash, k: nat,
                            h: Hash)
    requires k < |chunks| && mesh(k, chunks[k]).Answered? && h in Hashes(mesh(k, chunks[k]).rejected)
    ensures h in Hashes(Verdicts(mesh, chunks, orders, hashOf).rejected)
  {
    var lists := RejectedBy(mesh, chunks, orders, hashOf);
    var i := InHashes(mesh(k, chunks[k]).rejected, h);
    assert lists[k] == mesh(k, chunks[k]).rejected;
    InFlatten(lists, k, i);
    var n :| 0 <= n < |Flatten(lists)| && Flatten(lists)[n] == i;
    assert Hashes(Flatten(lists))[n] == h;
  }

  lemma InHashes(infos: seq<OrderInfo>, h: Hash) returns (i: OrderInfo)
    requires h in Hashes(infos)
    ensures i in infos && i.orderHash == h
  {
    var n :| 0 <= n < |Hashes(infos)| && Hashes(infos)[n] == h;
    i := infos[n];
  }

  lemma FlattenMembers<T>(chunks: seq<seq<T>>, x: T)
    ensures x in Flatten(chunks) <==> exists k :: 0 <= k < |chunks| && x in chunks[k]
  {
    if x in Flatten(chunks) {
      var k := FromFlatten(chunks, x);
    } else if k :| 0 <= k < |chunks| && x in chunks[k] {
      InFlatten(chunks, k, x);
    }
  }

  /** A reply cut off half way counts as far as it was read. */
  predicate SaysAccepted(reply: Reply, i: OrderInfo) {
    || (reply.Answered? && i in reply.accepted)
    || (reply.Truncated? && i in reply.partial)
  }

  /** Any failure rejects every order of the call, with nothing fillable. */
  predicate SaysRejected(reply: Reply, orders: seq<Order>, hashOf: Order -> Hash, i: OrderInfo) {
    if reply.Answered? then i in reply.rejected
    else i.order in orders && i.orderHash == hashOf(i.order) && i.fillable == None
  }

  /** The verdicts of a call hold what the replies to its chunks said, and no more. */
  lemma VerdictsExactly(mesh: Mesh, chunks: seq<seq<Order>>, orders: seq<Order>, hashOf: Order -> Hash, i: OrderInfo)
    ensures i in Verdicts(mesh, chunks, orders, hashOf).accepted <==>
      exists k :: 0 <= k < |chunks| && SaysAccepted(mesh(k, chunks[k]), i)
    ensures i in Verdicts(mesh, chunks, orders, hashOf).rejected <==>
      exists k :: 0 <= k < |chunks| && SaysRejected(mesh(k, chunks[k]), orders, hashOf, i)
  {
    var accepted, rejected := AcceptedBy(mesh, chunks), RejectedBy(mesh, chunks, orders, hashOf);
    FlattenMembers(accepted, i);
    FlattenMembers(rejected, i);
    RejectsAll(orders, hashOf, i);
    forall k | 0 <= k < |chunks|
      ensures i in accepted[k] <==> SaysAccepted(mesh(k, chunks[k]), i)
      ensures i in rejected[k] <==> SaysRejected(mesh(k, chunks[k]), orders, hashOf, i)
    {
    }
  }

  lemma RejectsAll(orders: seq<Order>, hashOf: Order -> Hash, i: OrderInfo)
    ensures i in RejectAll(orders, hashOf) <==>
      i.order in orders && i.orderHash == hashOf(i.order) && i.fillable == None
  {
    if i.order in orders {
      var n :| 0 <= n < |orders| && orders[n] == i.order;
      assert RejectAll(orders, hashOf)[n] == OrderInfo(hashOf(i.order), i.order, None);
    }
  }

  // ---- websocket ---------------------------------------------------------------------------

  /** A chunk that fails here throws, and nothing is reported. */
  method AddOverWebsocket(orders: seq<Order>, mesh: Mesh, hashOf: Order -> Hash)
    returns (results: Results, ok: bool)
    ensures ok <==> AllDelivered(mesh, ChunkBy(orders, MESH_ORDERS_BATCH_SIZE))
    ensures ok ==> results == Verdicts(mesh, ChunkBy(orders, MESH_ORDERS_BATCH_SIZE), orders, hashOf)
  {
    var chunks := ChunkBy(orders, MESH_ORDERS_BATCH_SIZE);
    results := Results([], []);
    var i := 0;
    while i < |chunks|
      invariant 0 <= i <= |chunks| && NoneFails(mesh, chunks, i)
      invariant results == Verdicts(mesh, chunks[..i], orders, hashOf)
    {
      var reply := mesh(i, chunks[i]);
      if !reply.Answered? {
        return results, false;
      }
      VerdictsNext(mesh, chunks, i, orders, hashOf);
      results := Results(results.accepted + reply.accepted, results.rejected + reply.rejected);
      i := i + 1;
    }
    assert chunks[..i] == chunks;
    ok := true;
  }

  // ---- http --------------------------------------------------------------------------------

  method AddOverHttp(orders: seq<Order>, mesh: Mesh, hashOf: Order -> Hash, size: Order -> nat)
    returns (results: Results)
    requires AllFit(orders, size, MESH_ORDERS_BATCH_HTTP_BYTE_LENGTH)
    ensures results == Verdicts(mesh, Greedy(orders, size, MESH_ORDERS_BATCH_HTTP_BYTE_LENGTH), orders, hashOf)
  {
    var chunks := ChunkByByteLength(orders, size, MESH_ORDERS_BATCH_HTTP_BYTE_LENGTH);
    results := Results([], []);
    var i := 0;
    while i < |chunks|
      invariant 0 <= i <= |chunks|
      invariant results == Verdicts(mesh, chunks[..i], orders, hashOf)
    {
      VerdictsNext(mesh, chunks, i, orders, hashOf);
      match mesh(i, chunks[i]) {
        case Answered(accepted, rejected) =>
          results := Results(results.accepted + accepted, results.rejected + rejected);
        case Truncated(accepted) =>
          results := Results(results.accepted + accepted, results.rejected + RejectAll(orders, hashOf));
        case Failed =>
          results := Results(results.accepted, results.rejected + RejectAll(orders, hashOf));
      }
      i := i + 1;
    }
    assert chunks[..i] == chunks;
  }

  // ---- both --------------------------------------------------------------------------------

  /** The websocket carries small batches, or everything when there is no http address. */
  predicate UsesWebsocket(hasHttp: bool, orders: seq<Order>) {
    !hasHttp || |orders| <= MESH_ORDERS_BATCH_SIZE
  }

  ghost predicate Sendable(hasHttp: bool, orders: seq<Order>, size: Order -> nat) {
    !UsesWebsocket(hasHttp, orders) ==> AllFit(orders, size, MESH_ORDERS_BATCH_HTTP_BYTE_LENGTH)
  }

  function ChunksOf(hasHttp: bool, orders: seq<Order>, size: Order -> nat): (chunks: seq<seq<Order>>)
    requires Sendable(hasHttp, orders, size)
    ensures Flatten(chunks) == orders
  {
    ChunkBySound(orders, MESH_ORDERS_BATCH_SIZE);
    if UsesWebsocket(hasHttp, orders) then ChunkBy(orders, MESH_ORDERS_BATCH_SIZE)
    else
      GreedySound(orders, size, MESH_ORDERS_BATCH_HTTP_BYTE_LENGTH);
      Greedy(orders, size, MESH_ORDERS_BATCH_HTTP_BYTE_LENGTH)
  }

  /** The call returns: over http always, over the websocket if every chunk is delivered. */
  ghost predicate Returns(hasHttp: bool, orders: seq<Order>, mesh: Mesh, size: Order -> nat)
    requires Sendable(hasHttp, orders, size)
  {
    !UsesWebsocket(hasHttp, orders) || AllDelivered(mesh, ChunksOf(hasHttp, orders, size))
  }

  /**
   * On either transport the call reports exactly the verdicts of Mesh's replies. Every submitted
   * order is among them, exactly once if nothing fails; a failing http chunk rejects every order of
   * the call; a failing websocket chunk throws.
   */
  method AddOrders(hasHttp: bool, orders: seq<Order>, mesh: Mesh, hashOf: Order -> Hash, size: Order -> nat)
    returns (results: Results, ok: bool)
    requires Sendable(hasHttp, orders, size)
    ensures ok <==> Returns(hasHttp, orders, mesh, size)
    ensures ok <==> (hasHttp && |orders| > 200) || AllDelivered(mesh, ChunkBy(orders, 200))
    ensures ok ==> results == Verdicts(mesh, ChunksOf(hasHttp, orders, size), orders, hashOf)
    ensures ok && Reliable(mesh, hashOf) ==> multiset(OrderHashes(orders, hashOf)) <= Reported(results)
    ensures Reliable(mesh, hashOf) && AllDelivered(mesh, ChunksOf(hasHttp, orders, size)) ==>
      ok && Reported(results) == multiset(OrderHashes(orders, hashOf))
    ensures ok && !AllDelivered(mesh, ChunksOf(hasHttp, orders, size)) ==>
      multiset(OrderHashes(orders, hashOf)) <= multiset(Hashes(results.rejected))
  {
    ghost var chunks := ChunksOf(hasHttp, orders, size);
    assert chunks[..|chunks|] == chunks;
    if UsesWebsocket(hasHttp, orders) {
      results, ok := AddOverWebsocket(orders, mesh, hashOf);
    } else {
      results := AddOverHttp(orders, mesh, hashOf, size);
      ok := true;
    }
    if Reliable(mesh, hashOf) {
      VerdictsComplete(mesh, chunks, orders, hashOf);
    }
    if !AllDelivered(mesh, chunks) {
      FailureRejectsAll(mesh, chunks, |chunks|, orders, hashOf);
    }
  }
}
