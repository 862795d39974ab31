/** Rows queued while a pass is running: they end up as if they had been queued right after it. */
module QueuedRows {
  import opened Wrappers
  import opened Transactions
  import opened Signers
  import opened Phases
  import opened WatcherInvariants
  import opened WatcherRuns

  /** A row the meta-transaction service may insert. */
  predicate Queueable(t: Table, q: Tx) {
    q.refHash !in t && IsUnsubmitted(q) && q.txHash.None? && q.from.None? && q.nonce.None?
  }

  function With(o: Outcome<Table>, q: Tx): Outcome<Table> {
    Outcome(Put(o.state, q), o.ok)
  }

  lemma SameHashTaken(t: Table, q: Tx, tx: Tx)
    requires Queueable(t, q)
    ensures HashTaken(Put(t, q), tx) <==> HashTaken(t, tx)
  {
    var t' := Put(t, q);
    if HashTaken(t, tx) {
      var k :| k in t && k != tx.refHash && t[k].txHash.Some? && t[k].txHash == tx.txHash;
      assert k in t' && t'[k] == t[k];
    }
  }

  /** A queued row is nobody's pending work. */
  lemma SameSigner(t: Table, q: Tx, signers: seq<Address>, balances: map<Address, real>)
    requires Queueable(t, q)
    ensures NextSigner(Put(t, q), signers, balances) == NextSigner(t, signers, balances)
  {
    forall a ensures EntryFor(Put(t, q), a, balances) == EntryFor(t, a, balances) {
      assert PendingKeys(Put(t, q), a) == PendingKeys(t, a);
    }
    assert SignerMap(Put(t, q), signers, balances) == SignerMap(t, signers, balances);
  }

  lemma PutsCommute(t: Table, q: Tx, tx: Tx)
    requires tx.refHash != q.refHash
    ensures Put(Put(t, q), tx) == Put(Put(t, tx), q)
  {
  }

  // ---- one turn of each loop ---------------------------------------------------------------

  lemma BroadcastAround(t: Table, q: Tx, tx: Tx, b: Broadcast, c: Config, balances: map<Address, real>)
    requires Queueable(t, q) && tx.refHash != q.refHash
    ensures SignAndBroadcast(Put(t, q), tx, b, c, balances) == Put(SignAndBroadcast(t, tx, b, c, balances), q)
  {
    SameSigner(t, q, c.signers, balances);
    if b.Sent? {
      var signed := tx.(status := Submitted, txHash := Some(b.hash), nonce := Some(b.nonce),
                        from := NextSigner(t, c.signers, balances), gas := Some(b.gas));
      SameHashTaken(t, q, signed);
      PutsCommute(t, q, signed);
    }
  }

  lemma SignRowAround(t: Table, q: Tx, tx: Tx, tick: SignTick, c: Config, balances: map<Address, real>)
    requires Queueable(t, q) && tx.refHash != q.refHash
    ensures SignRow(Put(t, q), tx, tick, c, balances) == With(SignRow(t, tx, tick, c, balances), q)
  {
    PutsCommute(t, q, tx.(status := Cancelled));
    BroadcastAround(t, q, tx, tick.broadcast, c, balances);
  }

  lemma AbortAround(t: Table, q: Tx, winner: Tx)
    requires Queueable(t, q)
    ensures AbortRivals(Put(t, q), winner) == Put(AbortRivals(t, winner), q)
  {
  }

  lemma SyncRowAround(t: Table, q: Tx, tx: Tx, tick: SyncTick)
    requires Queueable(t, q) && tx.refHash != q.refHash
    ensures SyncRow(Put(t, q), tx, tick) == With(SyncRow(t, tx, tick), q)
  {
    PutsCommute(t, q, tx.(status := Dropped));
    PutsCommute(t, q, tx.(status := Mempool));
    PutsCommute(t, q, tx.(status := Stuck));
    if tick.reply.Found? {
      var mined := tx.(status := Included, blockNumber := tick.reply.block);
      PutsCommute(t, q, mined);
      AbortAround(Put(t, mined), q, mined);
    }
  }

  lemma UnstickRowAround(t: Table, q: Tx, tx: Tx, target: nat, tick: UnstickTick, c: Config)
    requires Queueable(t, q) && tick.hash != Some(q.refHash)
    ensures UnstickRow(Put(t, q), tx, target, tick, c) == With(UnstickRow(t, tx, target, tick, c), q)
  {
    if tick.hash.Some? {
      var bid := ReplacementFor(tx, tick.hash.value, target, tick.now, c);
      SameHashTaken(t, q, bid);
      PutsCommute(t, q, bid);
    }
  }

  lemma ConfirmRowAround(t: Table, q: Tx, tx: Tx, head: nat, tick: ConfirmTick, c: Config)
    requires Queueable(t, q) && tx.refHash != q.refHash
    ensures ConfirmRow(Put(t, q), tx, head, tick, c) == With(ConfirmRow(t, tx, head, tick, c), q)
  {
    PutsCommute(t, q, tx.(status := Submitted));
    PutsCommute(t, q, tx.(status := Mempool, blockNumber := None));
    if tick.receipt.Some? {
      var r := tick.receipt.value;
      PutsCommute(t, q, tx.(status := Confirmed, gasUsed := Some(r.gasUsed),
                            txStatus := if r.status.None? then tx.txStatus else r.status));
    }
  }

  // ---- the rest of each loop, from any turn on ---------------------------------------------

  ghost predicate NotAmong(rows: seq<Tx>, q: Tx) {
    forall n :: 0 <= n < |rows| ==> rows[n].refHash != q.refHash
  }

  lemma {:induction false} SignRowsAround(t: Table, q: Tx, rows: seq<Tx>, i: nat, ticks: nat -> SignTick, c: Config,
                                          balances: map<Address, real>)
    requires i <= |rows| && Queueable(t, q) && NotAmong(rows, q)
    ensures SignRows(Put(t, q), rows, i, ticks, c, balances) == With(SignRows(t, rows, i, ticks, c, balances), q)
    ensures q.refHash !in SignRows(t, rows, i, ticks, c, balances).state
    decreases |rows| - i
  {
    if i == |rows| {
    } else {
      SignRowAround(t, q, rows[i], ticks(i), c, balances);
      var step := SignRow(t, rows[i], ticks(i), c, balances);
      if step.ok {
        SignRowsAround(step.state, q, rows, i + 1, ticks, c, balances);
      }
    }
  }

  lemma {:induction false} SyncRowsAround(t: Table, q: Tx, rows: seq<Tx>, i: nat, ticks: nat -> SyncTick)
    requires i <= |rows| && Queueable(t, q) && NotAmong(rows, q)
    ensures SyncRows(Put(t, q), rows, i, ticks) == With(SyncRows(t, rows, i, ticks), q)
    ensures q.refHash !in SyncRows(t, rows, i, ticks).state
    decreases |rows| - i
  {
    if i == |rows| {
    } else {
      SyncRowAround(t, q, rows[i], ticks(i));
      var step := SyncRow(t, rows[i], ticks(i));
      if step.ok {
        SyncRowsAround(step.state, q, rows, i + 1, ticks);
      }
    }
  }

  lemma {:induction false} UnstickRowsAround(t: Table, q: Tx, rows: seq<Tx>, i: nat, target: nat,
                                             ticks: nat -> UnstickTick, c: Config)
    requires i <= |rows| && Queueable(t, q) && q.refHash !in SentHashes(|rows|, ticks)
    ensures UnstickRows(Put(t, q), rows, i, target, ticks, c) == With(UnstickRows(t, rows, i, target, ticks, c), q)
    ensures q.refHash !in UnstickRows(t, rows, i, target, ticks, c).state
    decreases |rows| - i
  {
    if i == |rows| {
    } else {
      UnstickRowAround(t, q, rows[i], target, ticks(i), c);
      var step := UnstickRow(t, rows[i], target, ticks(i), c);
      if step.ok {
        UnstickRowsAround(step.state, q, rows, i + 1, target, ticks, c);
      }
    }
  }

  lemma {:induction false} ConfirmRowsAround(t: Table, q: Tx, rows: seq<Tx>, i: nat, head: nat,
                                             ticks: nat -> ConfirmTick, c: Config)
    requires i <= |rows| && Queueable(t, q) && NotAmong(rows, q)
    ensures ConfirmRows(Put(t, q), rows, i, head, ticks, c) == With(ConfirmRows(t, rows, i, head, ticks, c), q)
    ensures q.refHash !in ConfirmRows(t, rows, i, head, ticks, c).state
    decreases |rows| - i
  {
    if i == |rows| {
    } else {
      ConfirmRowAround(t, q, rows[i], head, ticks(i), c);
      var step := ConfirmRow(t, rows[i], head, ticks(i), c);
      if step.ok {
        ConfirmRowsAround(step.state, q, rows, i + 1, head, ticks, c);
      }
    }
  }

  // ---- the pass ----------------------------------------------------------------------------

  /** The queries of the later phases do not see the row. */
  lemma SameListing(t: Table, q: Tx, rows: seq<Tx>, keep: Tx -> bool)
    requires Queueable(t, q) && !keep(q) && Listing(rows, t, keep)
    ensures Listing(rows, Put(t, q), keep) && NotAmong(rows, q)
  {
  }

  /** Each list is what its query could return; the first one was taken before the row came. */
  ghost predicate FetchedAfterwards(t: Table, p: PassInput, c: Config) {
    && Listing(p.pending, AfterSigning(t, p, c), Pending)
    && (AfterSync(t, p, c).ok ==> Listing(p.stuck, AfterSync(t, p, c).state, IsStuck))
    && (AfterUnstick(t, p, c).ok && p.head.Some? ==> Listing(p.included, AfterUnstick(t, p, c).state, IsIncluded))
  }

  lemma PhasesAround(t: Table, p: PassInput, c: Config, q: Tx)
    requires Fetched(t, p, c) && Queueable(t, q) && q.refHash !in Resent(p)
    ensures AfterSigning(Put(t, q), p, c) == Put(AfterSigning(t, p, c), q) && Queueable(AfterSigning(t, p, c), q)
    ensures AfterSync(Put(t, q), p, c) == With(AfterSync(t, p, c), q) && Queueable(AfterSync(t, p, c).state, q)
    ensures AfterUnstick(Put(t, q), p, c) == With(AfterUnstick(t, p, c), q) && Queueable(AfterUnstick(t, p, c).state, q)
    ensures NotAmong(p.pending, q)
  {
    assert NotAmong(p.unsubmitted, q);
    SignRowsAround(t, q, p.unsubmitted, 0, p.sign, c, p.balances);
    var t1 := AfterSigning(t, p, c);
    SameListing(t1, q, p.pending, Pending);
    SyncRowsAround(t1, q, p.pending, 0, p.sync);
    if p.target.Some? {
      UnstickRowsAround(AfterSync(t, p, c).state, q, p.stuck, 0, p.target.value, p.unstick, c);
    }
  }

  /**
   * A row queued anywhere after the first query of a pass does not disturb it: the queries still
   * return what they did, and the outcome is the pass followed by the queued row. By the lemmas on
   * the loops it does not matter before which turn the row comes.
   */
  lemma QueuedDuringPass(t: Table, p: PassInput, c: Config, q: Tx)
    requires Fetched(t, p, c) && Queueable(t, q) && q.refHash !in Resent(p)
    ensures Pass(Put(t, q), p, c) == Put(Pass(t, p, c), q)
    ensures FetchedAfterwards(Put(t, q), p, c)
    ensures Queueable(Pass(t, p, c), q)
  {
    PhasesAround(t, p, c, q);
    SameListing(AfterSigning(t, p, c), q, p.pending, Pending);
    var synced, unstuck := AfterSync(t, p, c), AfterUnstick(t, p, c);
    if synced.ok {
      SameListing(synced.state, q, p.stuck, IsStuck);
    }
    if unstuck.ok && p.head.Some? {
      SameListing(unstuck.state, q, p.included, IsIncluded);
      ConfirmRowsAround(unstuck.state, q, p.included, 0, p.head.value, p.confirm, c);
    }
  }

  /** So such a pass is one of the runs the theorems speak about: the pass, then the queued row. */
  lemma QueuedDuringPassIsARun(run: seq<Event>, p: PassInput, c: Config, q: Tx)
    requires PossibleRun(run + [Poll(p)], c)
    requires Queueable(After(run, c), q) && q.data.Some? && q.refHash !in Resent(p)
    ensures PossibleRun(run + [Poll(p)] + [Queue(q)], c)
    ensures After(run + [Poll(p)] + [Queue(q)], c) == Pass(Put(After(run, c), q), p, c)
  {
    var polled := run + [Poll(p)];
    var queued := polled + [Queue(q)];
    assert polled[..|run|] == run && queued[..|polled|] == polled;
    QueuedDuringPass(After(run, c), p, c, q);
  }
}
