/** The two subscription maps over whole runs of the websocket server. */
module SocketRegistry {
  import opened Subscriptions

  type RequestId = string
  type SocketId = nat

  /** `listed` holds the request ids each socket has collected. */
  datatype Registry = Registry(
    sockets: map<RequestId, SocketId>,
    opts: map<RequestId, SubscriptionOpts>,
    listed: set<(SocketId, RequestId)>)

  datatype Event =
    | Connect(socket: SocketId)
    | Subscribe(socket: SocketId, requestId: RequestId, opts: SubscriptionOpts)
    | Close(socket: SocketId)
    | Destroy

  const EMPTY := Registry(map[], map[], {})

  function Without(listed: set<(SocketId, RequestId)>, s: SocketId): set<(SocketId, RequestId)> {
    set p | p in listed && p.0 != s
  }

  function IdsOf(listed: set<(SocketId, RequestId)>, s: SocketId): (ids: set<RequestId>)
    ensures forall r :: r in ids <==> (s, r) in listed
  {
    set p | p in listed && p.0 == s :: p.1
  }

  function Apply(reg: Registry, e: Event): Registry {
    match e
    case Connect(s) => reg.(listed := Without(reg.listed, s))
    case Subscribe(s, r, o) => Registry(reg.sockets[r := s], reg.opts[r := o], reg.listed + {(s, r)})
    case Close(s) => Registry(reg.sockets - IdsOf(reg.listed, s), reg.opts - IdsOf(reg.listed, s), reg.listed)
    case Destroy => Registry(map[], map[], reg.listed)
  }

  function After(run: seq<Event>): Registry {
    if run == [] then EMPTY else Apply(After(run[..|run| - 1]), run[|run| - 1])
  }

  /** The same request ids in both maps, and every mapped socket lists the id it is mapped under. */
  predicate Agree(reg: Registry) {
    && reg.sockets.Keys == reg.opts.Keys
    && forall r :: r in reg.sockets ==> (reg.sockets[r], r) in reg.listed
  }

  /** The server reports a socket as connected before it delivers its first message. */
  ghost predicate ConnectsFirst(run: seq<Event>) {
    forall i, j :: 0 <= i < j < |run| && run[i].Subscribe? && run[j].Connect? ==> run[i].socket != run[j].socket
  }

  ghost predicate HasSubscribed(run: seq<Event>, s: SocketId, r: RequestId) {
    exists i :: 0 <= i < |run| && run[i].Subscribe? && run[i].socket == s && run[i].requestId == r
  }

  lemma {:induction false} ListedExactly(run: seq<Event>, s: SocketId, r: RequestId)
    requires ConnectsFirst(run)
    ensures (s, r) in After(run).listed <==> HasSubscribed(run, s, r)
  {
    if run == [] {
    } else {
      var before, last := run[..|run| - 1], run[|run| - 1];
      ListedExactly(before, s, r);
      assert HasSubscribed(before, s, r) ==> HasSubscribed(run, s, r);
      if last.Subscribe? && last.socket == s && last.requestId == r {
        assert run[|run| - 1] == last;
      } else if i :| 0 <= i < |run| && run[i].Subscribe? && run[i].socket == s && run[i].requestId == r {
        assert before[i] == run[i];
      }
    }
  }

  /** Both maps agree after every run. */
  lemma {:induction false} EveryRunAgrees(run: seq<Event>)
    requires ConnectsFirst(run)
    ensures Agree(After(run))
  {
    if run == [] {
    } else {
      var before := run[..|run| - 1];
      EveryRunAgrees(before);
      forall r | r in After(run).sockets ensures (After(run).sockets[r], r) in After(run).listed {
        if run[|run| - 1].Connect? {
          ListedExactly(before, After(before).sockets[r], r);
          ListedExactly(run, After(before).sockets[r], r);
          assert HasSubscribed(before, After(before).sockets[r], r);
          var i :| 0 <= i < |before| && before[i].Subscribe? && before[i].socket == After(before).sockets[r]
              && before[i].requestId == r;
          assert run[i] == before[i];
        }
      }
    }
  }

  /**
   * What takes a subscription away: a newer one under the same id, the end of the service, or the
   * close of any socket that has ever used the id, whoever holds it now.
   */
  ghost predicate Ends(run: seq<Event>, j: nat, r: RequestId)
    requires j < |run|
  {
    match run[j]
    case Connect(_) => false
    case Subscribe(_, q, _) => q == r
    case Close(s) => HasSubscribed(run[..j], s, r)
    case Destroy => true
  }

  /** Subscription `i` is the one in force for `r`. */
  ghost predicate InForce(run: seq<Event>, i: nat, r: RequestId) {
    && i < |run| && run[i].Subscribe? && run[i].requestId == r
    && forall j :: i < j < |run| ==> !Ends(run, j, r)
  }

  lemma InForceBefore(run: seq<Event>, i: nat, r: RequestId)
    requires run != [] && i < |run| - 1
    ensures InForce(run, i, r) <==> InForce(run[..|run| - 1], i, r) && !Ends(run, |run| - 1, r)
  {
    var before := run[..|run| - 1];
    forall j | i < j < |before| ensures Ends(run, j, r) == Ends(before, j, r) {
      assert before[..j] == run[..j];
    }
  }

  lemma OnlyLastInForce(run: seq<Event>, r: RequestId)
    requires run != [] && run[|run| - 1].Subscribe? && run[|run| - 1].requestId == r
    ensures forall i: nat :: InForce(run, i, r) <==> i == |run| - 1
  {
    assert Ends(run, |run| - 1, r);
  }

  lemma OthersInForce(run: seq<Event>, i: nat, r: RequestId)
    requires run != [] && !(run[|run| - 1].Subscribe? && run[|run| - 1].requestId == r)
    ensures InForce(run, i, r) <==> InForce(run[..|run| - 1], i, r) && !Ends(run, |run| - 1, r)
  {
    if i < |run| - 1 {
      InForceBefore(run, i, r);
    }
  }

  /** The last event, unless it subscribes under `r`, keeps the entry for `r` or ends it. */
  lemma EntryKeptOrEnded(run: seq<Event>, r: RequestId)
    requires ConnectsFirst(run) && run != [] && !(run[|run| - 1].Subscribe? && run[|run| - 1].requestId == r)
    ensures r in After(run).sockets <==> r in After(run[..|run| - 1]).sockets && !Ends(run, |run| - 1, r)
    ensures r in After(run).sockets ==> After(run).sockets[r] == After(run[..|run| - 1]).sockets[r]
    ensures r in After(run).opts <==> r in After(run[..|run| - 1]).opts && !Ends(run, |run| - 1, r)
    ensures r in After(run).opts ==> After(run).opts[r] == After(run[..|run| - 1]).opts[r]
  {
    if run[|run| - 1].Close? {
      ListedExactly(run[..|run| - 1], run[|run| - 1].socket, r);
    }
  }

  /** What the maps hold for the subscription in force. */
  ghost predicate Holds(run: seq<Event>, i: nat, r: RequestId)
    requires InForce(run, i, r)
  {
    && r in After(run).sockets && After(run).sockets[r] == run[i].socket
    && r in After(run).opts && After(run).opts[r] == run[i].opts
  }

  /** The maps hold exactly the subscriptions in force, with their sockets and filters. */
  lemma {:induction false} RegisteredExactly(run: seq<Event>, r: RequestId)
    requires ConnectsFirst(run)
    ensures r in After(run).sockets <==> exists i: nat :: InForce(run, i, r)
    ensures forall i: nat :: InForce(run, i, r) ==> Holds(run, i, r)
  {
    if run == [] {
    } else if run[|run| - 1].Subscribe? && run[|run| - 1].requestId == r {
      OnlyLastInForce(run, r);
      assert InForce(run, |run| - 1, r);
    } else {
      var before := run[..|run| - 1];
      RegisteredExactly(before, r);
      EntryKeptOrEnded(run, r);
      forall i: nat ensures InForce(run, i, r) <==> InForce(before, i, r) && !Ends(run, |run| - 1, r) {
        OthersInForce(run, i, r);
      }
      if r in After(run).sockets {
        var i: nat :| InForce(before, i, r);
        assert InForce(run, i, r);
      }
      forall i: nat | InForce(run, i, r) ensures Holds(run, i, r) {
        assert InForce(before, i, r) && Holds(before, i, r) && before[i] == run[i];
      }
    }
  }

  /** A socket that has closed and does not subscribe again owns nothing, whatever the others do. */
  lemma NothingAfterClose(run: seq<Event>, j: nat, s: SocketId, r: RequestId)
    requires ConnectsFirst(run) && j < |run| && run[j] == Close(s)
    requires forall k :: j < k < |run| && run[k].Subscribe? ==> run[k].socket != s
    ensures r in After(run).sockets ==> After(run).sockets[r] != s
  {
    RegisteredExactly(run, r);
    if r in After(run).sockets && After(run).sockets[r] == s {
      var i: nat :| InForce(run, i, r);
      assert run[i].socket == s && i < j;
      assert run[..j][i] == run[i];
      assert HasSubscribed(run[..j], s, r);
      assert Ends(run, j, r);
    }
  }
}
