/** What the phases come to over a whole pass, and over every run, stated on the rows themselves. */
module PassOutcome {
  import opened Transactions
  import opened Phases
  import opened WatcherInvariants
  import opened WatcherRuns
  import ConfirmOutcome
  import SignOutcome
  import SyncOutcome
  import UnstickOutcome

  // ---- one pass --------------------------------------------------------------------------

  /** Asking the node about every pending row went through. */
  ghost predicate SyncRuns(p: PassInput) {
    SyncOutcome.Reached(p.pending, p.sync, |p.pending|)
  }

  /** There was nothing to unstick, or the gas station answered and every sender is a signer. */
  ghost predicate UnstickRuns(p: PassInput, c: Config) {
    p.stuck == [] || (p.target.Some? && UnstickOutcome.Reached(p.stuck, p.target.value, c, |p.stuck|))
  }

  /** Which phases a pass comes to: an exception while signing skips nothing, a later one the rest. */
  lemma PhasesRun(t: Table, p: PassInput, c: Config)
    ensures AfterSync(t, p, c).ok <==> SyncRuns(p)
    ensures !SyncRuns(p) ==> Pass(t, p, c) == SyncRows(AfterSigning(t, p, c), p.pending, 0, p.sync).state
    ensures SyncRuns(p) ==> (AfterUnstick(t, p, c).ok <==> UnstickRuns(p, c))
    ensures SyncRuns(p) && p.target.None? ==> AfterUnstick(t, p, c).state == AfterSync(t, p, c).state
    ensures SyncRuns(p) && p.target.Some? ==>
      AfterUnstick(t, p, c) == UnstickRows(AfterSync(t, p, c).state, p.stuck, 0, p.target.value, p.unstick, c)
    ensures SyncRuns(p) && (!UnstickRuns(p, c) || p.head.None?) ==> Pass(t, p, c) == AfterUnstick(t, p, c).state
    ensures SyncRuns(p) && UnstickRuns(p, c) && p.head.Some? ==>
      Pass(t, p, c) == ConfirmRows(AfterUnstick(t, p, c).state, p.included, 0, p.head.value, p.confirm, c).state
  {
    SyncOutcome.LoopReturns(AfterSigning(t, p, c), p.pending, p.sync, |p.pending|);
    assert p.pending[..|p.pending|] == p.pending;
    if p.target.Some? {
      UnstickOutcome.LoopReturns(AfterSync(t, p, c).state, p.stuck, p.target.value, p.unstick, c, |p.stuck|);
      assert p.stuck[..|p.stuck|] == p.stuck;
    }
  }


  /** A row nobody asks the node about, and that is not resent, keeps what signing made of it. */
  lemma FinalPath(t: Table, t1: Table, t2: Table, t3: Table, t4: Table, resent: set<Hash>, k: Hash)
    requires Phased(t, t1, t2, t3, t4, resent) && k in t1 && t1[k].status == Cancelled && k !in resent
    ensures k in t4 && t4[k] == t1[k]
  {
    assert SyncedOrAborted(t1[k], t2[k]) && ConfirmedOrKept(t3[k], t4[k]);
  }

  lemma AbortedPath(t: Table, t1: Table, t2: Table, t3: Table, t4: Table, resent: set<Hash>, k: Hash)
    requires Phased(t, t1, t2, t3, t4, resent) && k in t4 && t4[k].status == Aborted
    requires k in t ==> t[k].status != Aborted
    ensures k in t1 && t1[k].status != Aborted && k in t2 && t2[k] == t4[k] && SameTx(t1[k], t2[k])
  {
    assert ConfirmedOrKept(t3[k], t4[k]);
    assert SignedOrKept(t[k], t1[k]) && SyncedOrAborted(t1[k], t2[k]);
  }

  lemma ConfirmedPath(t: Table, t1: Table, t2: Table, t3: Table, t4: Table, resent: set<Hash>, k: Hash)
    requires Phased(t, t1, t2, t3, t4, resent) && k in t4 && t4[k].status == Confirmed
    ensures k in t3
    ensures t3[k].status == Confirmed ==> k in t && t[k] == t4[k]
    ensures t3[k].status != Confirmed && k in t ==> t[k].status != Confirmed
  {
    assert ConfirmedOrKept(t3[k], t4[k]);
    if k in t {
      assert SignedOrKept(t[k], t1[k]) && SyncedOrAborted(t1[k], t2[k]);
    }
  }

  lemma UnminedPath(t: Table, t1: Table, t2: Table, t3: Table, t4: Table, resent: set<Hash>, k: Hash)
    requires Phased(t, t1, t2, t3, t4, resent) && k in t3 && t3[k].status != Included
    ensures k in t4 && t4[k] == t3[k]
  {
    assert ConfirmedOrKept(t3[k], t4[k]);
  }

  /** A row the sign loop gave up stays cancelled, whatever the rest of the pass does. */
  lemma GivenUpInPass(t: Table, p: PassInput, c: Config, j: nat)
    requires WellFormed(t) && Fetched(t, p, c) && j < |p.unsubmitted|
    requires SignOutcome.Reached(p.unsubmitted, p.sign, j) && SignOutcome.GivenUp(p.unsubmitted[j], p.sign(j))
    requires p.unsubmitted[j].refHash !in Resent(p)
    ensures p.unsubmitted[j].refHash in Pass(t, p, c)
    ensures Pass(t, p, c)[p.unsubmitted[j].refHash] == p.unsubmitted[j].(status := Cancelled)
  {
    var t1, t2, t3, t4 := AfterSigning(t, p, c), AfterSync(t, p, c).state, AfterUnstick(t, p, c).state, Pass(t, p, c);
    SignOutcome.SignedExactly(t, p.unsubmitted, p.sign, c, p.balances, j);
    PassIsPhased(t, p, c);
    FinalPath(t, t1, t2, t3, t4, Resent(p), p.unsubmitted[j].refHash);
  }

  /** A pending row, those just signed among them, leaves the pass as the sync loop left it unless it was mined. */
  lemma SyncedInPass(t: Table, p: PassInput, c: Config, j: nat)
    requires WellFormed(t) && Fetched(t, p, c) && j < |p.pending| && p.pending[j].refHash !in Resent(p)
    ensures p.pending[j].refHash in Pass(t, p, c)
    ensures var row := SyncOutcome.RowAfter(p.pending, p.sync, |p.pending|, j);
      if row.status != Included then Pass(t, p, c)[p.pending[j].refHash] == row
      else ConfirmedFrom(row, Pass(t, p, c)[p.pending[j].refHash])
  {
    var k := p.pending[j].refHash;
    SyncOutcome.EveryOutcome(AfterSigning(t, p, c), p.pending, p.sync, j);
    PassIsPhased(t, p, c);
    assert ConfirmedOrKept(AfterUnstick(t, p, c).state[k], Pass(t, p, c)[k]);
  }

  lemma AbortedWhileSyncing(t: Table, p: PassInput, c: Config, k: Hash)
    requires WellFormed(t) && Fetched(t, p, c) && k in Pass(t, p, c) && Pass(t, p, c)[k].status == Aborted
    requires k in t ==> t[k].status != Aborted
    ensures var t1, t2 := AfterSigning(t, p, c), AfterSync(t, p, c).state;
      && k in t1 && t1[k].refHash == k && t1[k].status != Aborted
      && k in t2 && t2[k].status == Aborted && SameTx(t1[k], Pass(t, p, c)[k])
  {
    var t1, t2, t3, t4 := AfterSigning(t, p, c), AfterSync(t, p, c).state, AfterUnstick(t, p, c).state, Pass(t, p, c);
    PassIsPhased(t, p, c);
    AbortedPath(t, t1, t2, t3, t4, Resent(p), k);
    SigningKeeps(t, p, c);
    assert RowOk(k, t1[k]);
  }

  /** A row is newly aborted only if another one of its account and nonce was found mined in the pass. */
  lemma AbortedInPass(t: Table, p: PassInput, c: Config, k: Hash) returns (m: nat)
    requires WellFormed(t) && Fetched(t, p, c) && k in Pass(t, p, c) && Pass(t, p, c)[k].status == Aborted
    requires k in t ==> t[k].status != Aborted
    ensures m < |p.pending| && p.pending[m].refHash != k && SyncOutcome.Reached(p.pending, p.sync, m)
    ensures FoundMined(p.pending[m], p.sync(m)) && SyncOutcome.Competes(Pass(t, p, c)[k], p.pending[m])
  {
    AbortedWhileSyncing(t, p, c, k);
    m := SyncOutcome.AbortedForAReason(AfterSigning(t, p, c), p.pending, p.sync, k);
  }

  /** A replacement sent in the pass, whose hash no later one got, is in the table at its end. */
  lemma ReplacedInPass(t: Table, p: PassInput, c: Config, j: nat)
    requires WellFormed(t) && Fetched(t, p, c) && SyncRuns(p) && p.target.Some? && j < |p.stuck|
    requires UnstickOutcome.Sends(AfterSync(t, p, c).state, p.stuck, p.target.value, p.unstick, c, j)
    requires forall m :: j < m < |p.stuck| ==> p.unstick(m).hash != p.unstick(j).hash
    ensures var h := p.unstick(j).hash.value;
      && h in Pass(t, p, c)
      && UnstickOutcome.Replaces(Pass(t, p, c)[h], p.stuck[j], h, p.target.value, p.unstick(j).now, c)
  {
    var t1, t2, t3, t4 := AfterSigning(t, p, c), AfterSync(t, p, c).state, AfterUnstick(t, p, c).state, Pass(t, p, c);
    PhasesRun(t, p, c);
    UnstickOutcome.ReplacementStands(t2, p.stuck, p.target.value, p.unstick, c, j);
    PassIsPhased(t, p, c);
    UnminedPath(t, t1, t2, t3, t4, Resent(p), p.unstick(j).hash.value);
  }

  /** The pass confirmed the row: the node shows it in a block, and enough blocks lie above its own. */
  ghost predicate ConfirmedBy(t: Table, p: PassInput, c: Config, k: Hash, row: Tx) {
    && (k in t ==> t[k].status != Confirmed) && k in Pass(t, p, c) && Pass(t, p, c)[k] == row
    && p.head.Some? && row.blockNumber.Some? && row.blockNumber.value + c.blocksUntilConfirmed < p.head.value
    && exists j :: 0 <= j < |p.included| && p.included[j].refHash == k
                   && p.confirm(j).reply.Found? && p.confirm(j).reply.block.Some? && p.confirm(j).receipt.Some?
  }

  lemma ConfirmedBefore(t: Table, p: PassInput, c: Config, k: Hash)
    requires WellFormed(t) && Fetched(t, p, c) && k in Pass(t, p, c) && Pass(t, p, c)[k].status == Confirmed
    ensures k in AfterUnstick(t, p, c).state
    ensures AfterUnstick(t, p, c).state[k].status == Confirmed ==> k in t && t[k] == Pass(t, p, c)[k]
    ensures AfterUnstick(t, p, c).state[k].status != Confirmed && k in t ==> t[k].status != Confirmed
  {
    var t1, t2, t3, t4 := AfterSigning(t, p, c), AfterSync(t, p, c).state, AfterUnstick(t, p, c).state, Pass(t, p, c);
    PassIsPhased(t, p, c);
    ConfirmedPath(t, t1, t2, t3, t4, Resent(p), k);
  }

  lemma ConfirmedLately(t: Table, p: PassInput, c: Config, k: Hash) returns (j: nat)
    requires Fetched(t, p, c) && k in AfterUnstick(t, p, c).state && AfterUnstick(t, p, c).state[k].status != Confirmed
    requires k in Pass(t, p, c) && Pass(t, p, c)[k].status == Confirmed
    ensures p.head.Some? && j < |p.included| && p.included[j].refHash == k && p.confirm(j).receipt.Some?
    ensures ConfirmOutcome.Buried(p.included[j], p.head.value, p.confirm(j), c)
    ensures Pass(t, p, c)[k].blockNumber == p.included[j].blockNumber
  {
    j := ConfirmOutcome.NewlyConfirmed(AfterUnstick(t, p, c).state, p.included, p.head.value, p.confirm, c, k);
  }

  /** A row confirmed after a pass was so before, and is unchanged, or the pass confirmed it. */
  lemma ConfirmedInPass(t: Table, p: PassInput, c: Config, k: Hash)
    requires WellFormed(t) && Fetched(t, p, c) && k in Pass(t, p, c) && Pass(t, p, c)[k].status == Confirmed
    ensures (k in t && t[k] == Pass(t, p, c)[k]) || ConfirmedBy(t, p, c, k, Pass(t, p, c)[k])
  {
    ConfirmedBefore(t, p, c, k);
    if AfterUnstick(t, p, c).state[k].status != Confirmed {
      var j := ConfirmedLately(t, p, c, k);
    }
  }

  // ---- whole runs ------------------------------------------------------------------------

  /** In no reachable table are two rows of one account and nonce both on the chain. */
  lemma OneMinedPerNonce(run: seq<Event>, c: Config, j: Hash, k: Hash)
    requires PossibleRun(run, c) && j in After(run, c) && k in After(run, c)
    requires After(run, c)[j].status in {Included, Confirmed} && After(run, c)[k].status in {Included, Confirmed}
    requires After(run, c)[j].from == After(run, c)[k].from && After(run, c)[j].nonce == After(run, c)[k].nonce
    ensures j == k
  {
    EveryRunWellFormed(run, c);
    assert RowOk(j, After(run, c)[j]);
    assert SameSlot(After(run, c)[j], After(run, c)[k]);
  }

  lemma AbortedBefore(t: Table, p: PassInput, c: Config, k: Hash)
    requires WellFormed(t) && Fetched(t, p, c) && k in Pass(t, p, c) && Pass(t, p, c)[k].status == Aborted
    requires k in t && t[k].status == Aborted
    ensures Pass(t, p, c)[k] == t[k]
  {
    var t1, t2, t3, t4 := AfterSigning(t, p, c), AfterSync(t, p, c).state, AfterUnstick(t, p, c).state, Pass(t, p, c);
    PassIsPhased(t, p, c);
    AbortedStays(t, t1, t2, t3, t4, Resent(p), k);
  }

  lemma AbortedStays(t: Table, t1: Table, t2: Table, t3: Table, t4: Table, resent: set<Hash>, k: Hash)
    requires Phased(t, t1, t2, t3, t4, resent) && k in t && t[k].status == Aborted
    requires k in t4 && t4[k].status == Aborted
    ensures t4[k] == t[k]
  {
    assert SignedOrKept(t[k], t1[k]) && SyncedOrAborted(t1[k], t2[k]) && ConfirmedOrKept(t3[k], t4[k]);
  }

  /** Every aborted row lost its nonce: some pass found another row of the same account and nonce mined. */
  lemma {:induction false} AbortedRowsLost(run: seq<Event>, c: Config, k: Hash) returns (n: nat, m: nat)
    requires PossibleRun(run, c) && k in After(run, c) && After(run, c)[k].status == Aborted
    ensures n < |run| && run[n].Poll? && m < |run[n].input.pending|
    ensures var p := run[n].input;
      && FoundMined(p.pending[m], p.sync(m)) && p.pending[m].refHash != k
      && SyncOutcome.Competes(After(run, c)[k], p.pending[m])
  {
    var prefix, e := run[..|run| - 1], run[|run| - 1];
    EveryRunWellFormed(prefix, c);
    if e.Poll? && (k in After(prefix, c) ==> After(prefix, c)[k].status != Aborted) {
      n := |run| - 1;
      m := AbortedInPass(After(prefix, c), e.input, c, k);
    } else {
      n, m := AbortedRowsLost(prefix, c, k);
      if e.Poll? {
        AbortedBefore(After(prefix, c), e.input, c, k);
      }
    }
  }

  /** Every confirmed row was confirmed by a pass whose head lay deep enough above its block. */
  lemma {:induction false} ConfirmedRowsAreBuried(run: seq<Event>, c: Config, k: Hash) returns (n: nat)
    requires PossibleRun(run, c) && k in After(run, c) && After(run, c)[k].status == Confirmed
    ensures n < |run| && run[n].Poll? && ConfirmedBy(After(run[..n], c), run[n].input, c, k, After(run, c)[k])
  {
    var prefix, e := run[..|run| - 1], run[|run| - 1];
    EveryRunWellFormed(prefix, c);
    if e.Poll? {
      ConfirmedInPass(After(prefix, c), e.input, c, k);
    }
    if e.Poll? && ConfirmedBy(After(prefix, c), e.input, c, k, After(run, c)[k]) {
      n := |run| - 1;
    } else {
      n := ConfirmedRowsAreBuried(prefix, c, k);
      assert prefix[..n] == run[..n];
    }
  }
}
