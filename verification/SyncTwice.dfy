/** With the chain and the clock standing still, a second sync finds nothing left to do. */
module SyncTwice {
  import opened Wrappers
  import opened Transactions
  import opened Phases
  import opened WatcherInvariants

  /** Every request is answered, and the answer depends on the transaction alone. */
  ghost predicate Frozen(rows: seq<Tx>, ticks: nat -> SyncTick, date: int, node: Hash -> NodeReply) {
    forall n :: 0 <= n < |rows| && rows[n].txHash.Some? ==>
      ticks(n) == SyncTick(Some(date), node(rows[n].txHash.value)) && node(rows[n].txHash.value) != RpcError
  }

  /** The node has nothing to report about this row that its status does not already say. */
  predicate Steady(tx: Tx, date: int, node: Hash -> NodeReply) {
    tx.txHash.Some? && node(tx.txHash.value) != RpcError &&
    match node(tx.txHash.value)
    case Found(true, Some(_)) => false
    case Found(true, None) => tx.status == (if tx.expectedAt <= date then Stuck else Mempool)
    case NotFoundTypeError => tx.expectedAt > date
    case _ => true
  }

  lemma SyncRowSteady(t: Table, tx: Tx, tick: SyncTick, date: int, node: Hash -> NodeReply)
    requires StaleCopy(t, tx) && tx.txHash.Some? && node(tx.txHash.value) != RpcError
    requires tick == SyncTick(Some(date), node(tx.txHash.value))
    ensures var step := SyncRow(t, tx, tick);
      step.ok && tx.refHash in step.state
      && (Pending(step.state[tx.refHash]) ==> Steady(step.state[tx.refHash], date, node))
  {
  }

  lemma CopiesHaveHashes(t: Table, rows: seq<Tx>, i: nat)
    requires RowsOk(t) && StaleCopies(t, rows, i)
    ensures forall n :: i <= n < |rows| ==> rows[n].txHash.Some?
  {
    forall n | i <= n < |rows| ensures rows[n].txHash.Some? {
      assert StaleCopy(t, rows[n]) && RowOk(rows[n].refHash, t[rows[n].refHash]);
    }
  }

  ghost predicate NothingNew(t: Table, rows: seq<Tx>, i: nat, date: int, node: Hash -> NodeReply) {
    forall n :: i <= n < |rows| && rows[n].refHash in t && Pending(t[rows[n].refHash]) ==>
      Steady(t[rows[n].refHash], date, node)
  }

  /** The row handled first is not touched again, unless to be aborted. */
  lemma FirstStaysSteady(t1: Table, t2: Table, rows: seq<Tx>, i: nat, date: int, node: Hash -> NodeReply)
    requires i < |rows| && SyncedRest(t1, t2, rows, i + 1) && rows[i].refHash in t1
    requires StaleCopies(t1, rows, i + 1)
    requires Pending(t1[rows[i].refHash]) ==> Steady(t1[rows[i].refHash], date, node)
    requires NothingNew(t2, rows, i + 1, date, node)
    ensures NothingNew(t2, rows, i, date, node)
  {
    var k := rows[i].refHash;
    assert NotAhead(rows, i + 1, k);
    assert KeptOrAborted(t1[k], t2[k]);
  }

  lemma SteadyStep(t: Table, rows: seq<Tx>, i: nat, tick: SyncTick, date: int, node: Hash -> NodeReply)
    requires i < |rows| && WellFormed(t) && StaleCopies(t, rows, i)
    requires rows[i].txHash.Some? ==>
      tick == SyncTick(Some(date), node(rows[i].txHash.value)) && node(rows[i].txHash.value) != RpcError
    ensures var step := SyncRow(t, rows[i], tick);
      && step.ok && WellFormed(step.state) && step.state.Keys == t.Keys && rows[i].refHash in t
      && StaleCopies(step.state, rows, i + 1)
      && (Pending(step.state[rows[i].refHash]) ==> Steady(step.state[rows[i].refHash], date, node))
  {
    CopiesHaveHashes(t, rows, i);
    SyncRowKeeps(t, rows[i], tick);
    SyncRowSteady(t, rows[i], tick, date, node);
    StaleCopiesStay(t, SyncRow(t, rows[i], tick).state, rows, i);
  }

  /** After the loop, every row it handled is either out of the pending states or steady. */
  lemma {:induction false} SyncRowsSteady(t: Table, rows: seq<Tx>, i: nat, ticks: nat -> SyncTick, date: int,
                                          node: Hash -> NodeReply)
    requires i <= |rows| && WellFormed(t) && StaleCopies(t, rows, i) && Frozen(rows, ticks, date, node)
    ensures SyncRows(t, rows, i, ticks).ok
    ensures NothingNew(SyncRows(t, rows, i, ticks).state, rows, i, date, node)
    ensures SyncedRest(t, SyncRows(t, rows, i, ticks).state, rows, i)
    decreases |rows| - i, 0
  {
    SyncRowsKeep(t, rows, i, ticks);
    if i == |rows| {
    } else {
      SteadyStep(t, rows, i, ticks(i), date, node);
      SteadyRest(SyncRow(t, rows[i], ticks(i)).state, rows, i, ticks, date, node);
    }
  }

  lemma {:induction false} SteadyRest(t: Table, rows: seq<Tx>, i: nat, ticks: nat -> SyncTick, date: int,
                                      node: Hash -> NodeReply)
    requires i < |rows| && WellFormed(t) && StaleCopies(t, rows, i + 1) && Frozen(rows, ticks, date, node)
    requires rows[i].refHash in t && (Pending(t[rows[i].refHash]) ==> Steady(t[rows[i].refHash], date, node))
    ensures SyncRows(t, rows, i + 1, ticks).ok
    ensures NothingNew(SyncRows(t, rows, i + 1, ticks).state, rows, i, date, node)
    decreases |rows| - i - 1, 1
  {
    SyncRowsSteady(t, rows, i + 1, ticks, date, node);
    FirstStaysSteady(t, SyncRows(t, rows, i + 1, ticks).state, rows, i, date, node);
  }

  lemma {:induction false} SteadyRowsIdle(t: Table, rows: seq<Tx>, i: nat, ticks: nat -> SyncTick, date: int,
                                          node: Hash -> NodeReply)
    requires i <= |rows| && Frozen(rows, ticks, date, node)
    requires forall n :: i <= n < |rows| ==>
      rows[n].refHash in t && t[rows[n].refHash] == rows[n] && Steady(rows[n], date, node)
    ensures SyncRows(t, rows, i, ticks) == Outcome(t, true)
    decreases |rows| - i
  {
    if i == |rows| {
    } else {
      assert Put(t, rows[i]) == t;
      SteadyRowsIdle(t, rows, i + 1, ticks, date, node);
    }
  }

  /** Syncing twice is syncing once, in whatever orders the rows are fetched. */
  lemma SyncIdempotent(t: Table, first: seq<Tx>, ticks1: nat -> SyncTick, second: seq<Tx>, ticks2: nat -> SyncTick,
                       date: int, node: Hash -> NodeReply)
    requires WellFormed(t) && Listing(first, t, Pending) && Frozen(first, ticks1, date, node)
    requires Listing(second, SyncRows(t, first, 0, ticks1).state, Pending) && Frozen(second, ticks2, date, node)
    ensures SyncRows(t, first, 0, ticks1).ok
    ensures SyncRows(SyncRows(t, first, 0, ticks1).state, second, 0, ticks2) == SyncRows(t, first, 0, ticks1)
  {
    assert StaleCopies(t, first, 0);
    SyncRowsSteady(t, first, 0, ticks1, date, node);
    var t1 := SyncRows(t, first, 0, ticks1).state;
    PendingAreSteady(t, t1, first, second, date, node);
    SteadyRowsIdle(t1, second, 0, ticks2, date, node);
  }

  lemma UnfetchedKept(t: Table, t1: Table, first: seq<Tx>, k: Hash)
    requires Listing(first, t, Pending) && SyncedRest(t, t1, first, 0) && k in t && !Pending(t[k])
    ensures KeptOrAborted(t[k], t1[k])
  {
    forall m | 0 <= m < |first| ensures first[m].refHash != k {
      assert Pending(first[m]);
    }
    assert NotAhead(first, 0, k);
  }

  lemma PendingAreSteady(t: Table, t1: Table, first: seq<Tx>, second: seq<Tx>, date: int, node: Hash -> NodeReply)
    requires RowsOk(t) && Listing(first, t, Pending) && SyncedRest(t, t1, first, 0) && Listing(second, t1, Pending)
    requires NothingNew(t1, first, 0, date, node)
    ensures forall n :: 0 <= n < |second| ==> Steady(second[n], date, node)
  {
    forall n | 0 <= n < |second| ensures Steady(second[n], date, node) {
      var k := second[n].refHash;
      if Pending(t[k]) {
        assert t[k] in first;
        var m :| 0 <= m < |first| && first[m] == t[k];
        assert RowOk(k, t[k]) && first[m].refHash == k;
      } else {
        UnfetchedKept(t, t1, first, k);
      }
    }
  }

  /**
   * The loop writes fetched copies back: a row that was aborted when its rival was found mined is
   * pending again if its own copy comes up later, and stays aborted if it came up before.
   */
  lemma StaleCopyRevives(t: Table, mined: Tx, rival: Tx, block: nat, date: int)
    requires WellFormed(t) && mined.refHash in t && rival.refHash in t && mined.refHash != rival.refHash
    requires t[mined.refHash] == mined && t[rival.refHash] == rival && Pending(mined) && rival.status == Submitted
    requires SameSlot(mined, rival) && rival.expectedAt > date
    ensures var found := SyncTick(Some(date), Found(true, Some(block)));
      var waiting := SyncTick(Some(date), Found(true, None));
      var t1 := SyncRow(t, mined, found).state;
      && t1[rival.refHash].status == Aborted
      && SyncRow(t1, rival, waiting).state[rival.refHash].status == Mempool
      && SyncRow(SyncRow(t, rival, waiting).state, mined, found).state[rival.refHash].status == Aborted
  {
    assert RowOk(mined.refHash, mined) && RowOk(rival.refHash, rival);
    assert !SameHash(t[mined.refHash], t[rival.refHash]);
  }
}
