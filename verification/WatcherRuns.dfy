/** Whole passes of the watcher, and what holds over every run of passes and submissions. */
module WatcherRuns {
  import opened Wrappers
  import opened Transactions
  import opened Phases
  import opened WatcherInvariants

  /** The rows each query returned during one pass, and everything the outside answered. */
  datatype PassInput = PassInput(
    balances: map<Address, real>,
    unsubmitted: seq<Tx>, sign: nat -> SignTick,
    pending: seq<Tx>, sync: nat -> SyncTick,
    stuck: seq<Tx>, target: Option<nat>, unstick: nat -> UnstickTick,
    head: Option<nat>, included: seq<Tx>, confirm: nat -> ConfirmTick)

  function AfterSigning(t: Table, p: PassInput, c: Config): Table {
    SignRows(t, p.unsubmitted, 0, p.sign, c, p.balances).state
  }

  function AfterSync(t: Table, p: PassInput, c: Config): Outcome<Table> {
    SyncRows(AfterSigning(t, p, c), p.pending, 0, p.sync)
  }

  function AfterUnstick(t: Table, p: PassInput, c: Config): Outcome<Table> {
    var synced := AfterSync(t, p, c);
    if !synced.ok then synced else UnstickPhase(synced.state, p.stuck, p.target, p.unstick, c)
  }

  function ConfirmPhase(t: Table, p: PassInput, c: Config): Outcome<Table> {
    if p.head.None? then Outcome(t, false)
    else ConfirmRows(t, p.included, 0, p.head.value, p.confirm, c)
  }

  /** Only the first phase is guarded: an exception in a later one skips the rest of the pass. */
  function Pass(t: Table, p: PassInput, c: Config): Table {
    var unstuck := AfterUnstick(t, p, c);
    if !unstuck.ok then unstuck.state else ConfirmPhase(unstuck.state, p, c).state
  }

  /** Each fetched list is what its query could return at that point of the pass. */
  ghost predicate Fetched(t: Table, p: PassInput, c: Config) {
    && Listing(p.unsubmitted, t, IsUnsubmitted)
    && Listing(p.pending, AfterSigning(t, p, c), Pending)
    && (AfterSync(t, p, c).ok ==> Listing(p.stuck, AfterSync(t, p, c).state, IsStuck))
    && (AfterUnstick(t, p, c).ok && p.head.Some? ==> Listing(p.included, AfterUnstick(t, p, c).state, IsIncluded))
  }

  /** No hash the node returned during this pass stands for a different transaction on file. */
  ghost predicate Honest(t: Table, p: PassInput, c: Config) {
    AfterSync(t, p, c).ok && p.target.Some? ==>
      HonestBids(AfterSync(t, p, c).state, p.stuck, 0, p.target.value, p.unstick, c)
  }

  /** Rows whose hash the node gave back for a replacement sent in this pass. */
  function Resent(p: PassInput): set<Hash> {
    SentHashes(|p.stuck|, p.unstick)
  }

  // ---- one pass --------------------------------------------------------------------------

  function Successors(s: Status): set<Status> {
    match s
    case Cancelled => {Cancelled}
    case Aborted => {Aborted}
    case Dropped => {Dropped, Aborted}
    case Confirmed => {Confirmed, Aborted}
    case Included => {Included, Confirmed, Submitted, Mempool, Aborted}
    case Unsubmitted => {Unsubmitted, Cancelled, Submitted, Mempool, Stuck, Included, Confirmed, Dropped, Aborted}
    case _ => {Submitted, Mempool, Stuck, Included, Confirmed, Dropped, Aborted}
  }

  predicate SignedOrKept(a: Tx, b: Tx) {
    if IsUnsubmitted(a) then SignedFrom(a, b) else b == a
  }

  predicate SyncedOrAborted(a: Tx, b: Tx) {
    if Pending(a) then SyncedFrom(a, b) else KeptOrAborted(a, b)
  }

  predicate ConfirmedOrKept(a: Tx, b: Tx) {
    b == a || (IsIncluded(a) && ConfirmedFrom(a, b))
  }

  ghost predicate EachRow(t: Table, t': Table, change: (Tx, Tx) -> bool) {
    t'.Keys == t.Keys && forall k :: k in t ==> change(t[k], t'[k])
  }

  lemma SigningKeeps(t: Table, p: PassInput, c: Config)
    requires WellFormed(t) && Fetched(t, p, c)
    ensures WellFormed(AfterSigning(t, p, c)) && EachRow(t, AfterSigning(t, p, c), SignedOrKept)
  {
    SignRowsKeep(t, p.unsubmitted, 0, p.sign, c, p.balances);
  }

  lemma SyncKeeps(t: Table, p: PassInput, c: Config)
    requires WellFormed(AfterSigning(t, p, c)) && Fetched(t, p, c)
    ensures WellFormed(AfterSync(t, p, c).state)
    ensures EachRow(AfterSigning(t, p, c), AfterSync(t, p, c).state, SyncedOrAborted)
  {
    var t1, t2 := AfterSigning(t, p, c), AfterSync(t, p, c).state;
    assert StaleCopies(t1, p.pending, 0);
    SyncRowsKeep(t1, p.pending, 0, p.sync);
    forall k | k in t1 ensures SyncedOrAborted(t1[k], t2[k]) {
      if Pending(t1[k]) {
        assert t1[k] in p.pending;
        var n :| 0 <= n < |p.pending| && p.pending[n] == t1[k];
        assert RowOk(k, t1[k]) && p.pending[n].refHash == k;
      } else {
        assert NotAhead(p.pending, 0, k);
      }
    }
  }

  /** Rows the unstick phase may add or rewrite. */
  ghost predicate OnlyResent(t: Table, t': Table, hs: set<Hash>) {
    && t.Keys <= t'.Keys
    && forall k :: k in t' && (k !in t || t'[k] != t[k]) ==> k in hs && Replacement(t'[k]) && t'[k].status == Submitted
  }

  lemma UnstickKeeps(t: Table, p: PassInput, c: Config)
    requires WellFormed(AfterSync(t, p, c).state)
    ensures WellFormed(AfterUnstick(t, p, c).state)
    ensures OnlyResent(AfterSync(t, p, c).state, AfterUnstick(t, p, c).state, Resent(p))
  {
    if AfterSync(t, p, c).ok && p.target.Some? {
      UnstickRowsKeep(AfterSync(t, p, c).state, p.stuck, 0, p.target.value, p.unstick, c);
    }
  }

  lemma ConfirmKeeps(t: Table, p: PassInput, c: Config)
    requires WellFormed(AfterUnstick(t, p, c).state) && Fetched(t, p, c)
    ensures WellFormed(Pass(t, p, c))
    ensures EachRow(AfterUnstick(t, p, c).state, Pass(t, p, c), ConfirmedOrKept)
  {
    if AfterUnstick(t, p, c).ok && p.head.Some? {
      ConfirmRowsKeep(AfterUnstick(t, p, c).state, p.included, 0, p.head.value, p.confirm, c);
    }
  }

  lemma SyncedBroadcast(a: Tx, b: Tx)
    requires SyncedOrAborted(a, b)
    ensures SameBroadcast(a, b)
    ensures Pending(a) ==> b.status in {Submitted, Mempool, Stuck, Included, Dropped, Aborted}
    ensures !Pending(a) ==> b.status == a.status || (b.status == Aborted && a.status !in {Unsubmitted, Cancelled})
  {
  }

  /** One row through signing, sync and confirmation. */
  lemma RowMoves(k: Hash, a: Tx, a1: Tx, a2: Tx, a4: Tx)
    requires RowOk(k, a) && SignedOrKept(a, a1) && SyncedOrAborted(a1, a2) && ConfirmedOrKept(a2, a4)
    ensures a4.status in Successors(a.status) && SameBroadcast(a, a4) && SameBroadcast(a, a2)
  {
    SyncedBroadcast(a1, a2);
    assert SameBroadcast(a2, a4);
    assert SameBroadcast(a, a1);
  }

  /** The four phases in turn, as changes from one table to the next. */
  ghost predicate Phased(t: Table, t1: Table, t2: Table, t3: Table, t4: Table, resent: set<Hash>) {
    && EachRow(t, t1, SignedOrKept) && EachRow(t1, t2, SyncedOrAborted)
    && OnlyResent(t2, t3, resent) && EachRow(t3, t4, ConfirmedOrKept)
  }

  lemma PassIsPhased(t: Table, p: PassInput, c: Config)
    requires WellFormed(t) && Fetched(t, p, c)
    ensures WellFormed(Pass(t, p, c))
    ensures Phased(t, AfterSigning(t, p, c), AfterSync(t, p, c).state, AfterUnstick(t, p, c).state, Pass(t, p, c),
                   Resent(p))
  {
    SigningKeeps(t, p, c);
    SyncKeeps(t, p, c);
    UnstickKeeps(t, p, c);
    ConfirmKeeps(t, p, c);
  }

  lemma PhasedMoves(t: Table, t1: Table, t2: Table, t3: Table, t4: Table, resent: set<Hash>)
    requires RowsOk(t) && Phased(t, t1, t2, t3, t4, resent)
    ensures t.Keys <= t4.Keys
    ensures forall k :: k in t && k !in resent ==> t4[k].status in Successors(t[k].status) && SameBroadcast(t[k], t4[k])
    ensures forall k :: k in t && k in resent ==>
      t4[k].status in Successors(t[k].status) || (Replacement(t4[k]) && t4[k].status == Submitted)
    ensures forall k :: k in t4 && k !in t ==> k in resent && Replacement(t4[k]) && t4[k].status == Submitted
  {
    forall k | k in t && t3[k] == t2[k]
      ensures t4[k].status in Successors(t[k].status) && SameBroadcast(t[k], t4[k])
    {
      RowMoves(k, t[k], t1[k], t2[k], t4[k]);
    }
    forall k | k in t && t3[k] != t2[k]
      ensures k in resent && Replacement(t4[k]) && t4[k].status == Submitted
    {
      assert ConfirmedOrKept(t3[k], t4[k]);
    }
    forall k | k in t4 && k !in t
      ensures k in resent && Replacement(t4[k]) && t4[k].status == Submitted
    {
      assert ConfirmedOrKept(t3[k], t4[k]);
    }
  }

  /**
   * One pass, for any answers: no row vanishes, a row that was not resent only moves along the
   * status graph, one that was may also be back to submitted, and every new row is a replacement
   * just submitted.
   */
  lemma PassMoves(t: Table, p: PassInput, c: Config)
    requires WellFormed(t) && Fetched(t, p, c)
    ensures WellFormed(Pass(t, p, c)) && t.Keys <= Pass(t, p, c).Keys
    ensures forall k :: k in t && k !in Resent(p) ==>
      Pass(t, p, c)[k].status in Successors(t[k].status) && SameBroadcast(t[k], Pass(t, p, c)[k])
    ensures forall k :: k in t && k in Resent(p) ==>
      Pass(t, p, c)[k].status in Successors(t[k].status)
      || (Replacement(Pass(t, p, c)[k]) && Pass(t, p, c)[k].status == Submitted)
    ensures forall k :: k in Pass(t, p, c) && k !in t ==>
      k in Resent(p) && Replacement(Pass(t, p, c)[k]) && Pass(t, p, c)[k].status == Submitted
  {
    PassIsPhased(t, p, c);
    PhasedMoves(t, AfterSigning(t, p, c), AfterSync(t, p, c).state, AfterUnstick(t, p, c).state, Pass(t, p, c),
                Resent(p));
  }

  lemma StuckOnFile(t: Table, rows: seq<Tx>)
    requires RowsOk(t) && Listing(rows, t, IsStuck)
    ensures OnFile(t, rows, 0)
  {
    forall n | 0 <= n < |rows| ensures RowOk(rows[n].refHash, t[rows[n].refHash]) {
    }
  }

  lemma PhasedBroadcasts(t: Table, t1: Table, t2: Table, t3: Table, t4: Table, resent: set<Hash>)
    requires RowsOk(t) && Phased(t, t1, t2, t3, t4, resent)
    ensures BroadcastsKept(t, t2) && BroadcastsKept(t3, t4)
  {
    forall k | k in t ensures k in t2 && SameBroadcast(t[k], t2[k]) {
      RowMoves(k, t[k], t1[k], t2[k], t2[k]);
    }
    forall k | k in t3 ensures k in t4 && SameBroadcast(t3[k], t4[k]) {
      assert ConfirmedOrKept(t3[k], t4[k]);
    }
  }

  lemma UnstickKeepsParents(t: Table, p: PassInput, c: Config)
    requires WellFormed(AfterSync(t, p, c).state) && HasParents(AfterSync(t, p, c).state)
    requires Fetched(t, p, c) && Honest(t, p, c)
    ensures var t2, t3 := AfterSync(t, p, c).state, AfterUnstick(t, p, c).state;
      HasParents(t3) && BroadcastsKept(t2, t3)
  {
    var t2 := AfterSync(t, p, c).state;
    if AfterSync(t, p, c).ok && p.target.Some? && p.stuck != [] {
      StuckOnFile(t2, p.stuck);
      UnstickRowsParents(t2, p.stuck, 0, p.target.value, p.unstick, c);
    }
  }

  lemma ParentsCarry(t: Table, t': Table)
    requires RowsOk(t) && RowsOk(t') && HasParents(t) && t'.Keys == t.Keys && BroadcastsKept(t, t')
    ensures HasParents(t')
  {
    forall k | k in t' && Replacement(t'[k]) ensures exists p :: p in t' && Outbids(t'[p], t'[k]) {
      assert RowOk(k, t[k]) && SameBroadcast(t[k], t'[k]);
      var p :| p in t && Outbids(t[p], t[k]);
      assert RowOk(p, t[p]) && SameBroadcast(t[p], t'[p]) && Outbids(t'[p], t'[k]);
    }
  }

  /** Signing and syncing change no broadcast row's slot, hash or bid; neither does confirming. */
  lemma PassBroadcasts(t: Table, p: PassInput, c: Config)
    requires WellFormed(t) && Fetched(t, p, c)
    ensures var t2, t3, t4 := AfterSync(t, p, c).state, AfterUnstick(t, p, c).state, Pass(t, p, c);
      && WellFormed(t2) && t2.Keys == t.Keys && BroadcastsKept(t, t2)
      && WellFormed(t3) && WellFormed(t4) && t4.Keys == t3.Keys && BroadcastsKept(t3, t4)
  {
    PassIsPhased(t, p, c);
    SigningKeeps(t, p, c);
    SyncKeeps(t, p, c);
    UnstickKeeps(t, p, c);
    PhasedBroadcasts(t, AfterSigning(t, p, c), AfterSync(t, p, c).state, AfterUnstick(t, p, c).state, Pass(t, p, c),
                     Resent(p));
  }

  /** With honest hashes a pass also keeps every resent row's slot, hash and bid, and the parents. */
  lemma PassKeepsParents(t: Table, p: PassInput, c: Config)
    requires WellFormed(t) && HasParents(t) && Fetched(t, p, c) && Honest(t, p, c)
    ensures HasParents(Pass(t, p, c)) && BroadcastsKept(t, Pass(t, p, c))
  {
    var t2, t3, t4 := AfterSync(t, p, c).state, AfterUnstick(t, p, c).state, Pass(t, p, c);
    PassBroadcasts(t, p, c);
    ParentsCarry(t, t2);
    UnstickKeepsParents(t, p, c);
    ParentsCarry(t3, t4);
    BroadcastsChain(t, t2, t3);
    BroadcastsChain(t, t3, t4);
  }

  // ---- whole runs ------------------------------------------------------------------------

  /** Between passes the meta-transaction service queues a new unsubmitted row. */
  datatype Event = Queue(tx: Tx) | Poll(input: PassInput)

  function Apply(t: Table, e: Event, c: Config): Table {
    match e
    case Queue(tx) => Put(t, tx)
    case Poll(p) => Pass(t, p, c)
  }

  ghost predicate Possible(t: Table, e: Event, c: Config) {
    match e
    case Queue(tx) =>
      && tx.refHash !in t && IsUnsubmitted(tx) && tx.data.Some?
      && tx.txHash.None? && tx.from.None? && tx.nonce.None?
    case Poll(p) => Fetched(t, p, c)
  }

  /** The table after a run from an empty one. */
  function After(run: seq<Event>, c: Config): Table {
    if run == [] then map[] else Apply(After(run[..|run| - 1], c), run[|run| - 1], c)
  }

  ghost predicate PossibleRun(run: seq<Event>, c: Config) {
    run == [] || (PossibleRun(run[..|run| - 1], c) && Possible(After(run[..|run| - 1], c), run[|run| - 1], c))
  }

  /** In every step of the run the node's hashes name their transactions. */
  ghost predicate HonestRun(run: seq<Event>, c: Config) {
    forall n :: 0 <= n < |run| && run[n].Poll? ==> Honest(After(run[..n], c), run[n].input, c)
  }

  /** No replacement sent in the run got the hash of a row already on file. */
  ghost predicate FreshRun(run: seq<Event>, c: Config) {
    forall n :: 0 <= n < |run| && run[n].Poll? ==> Resent(run[n].input) !! After(run[..n], c).Keys
  }

  /** Whatever the node answers, no slot of an account ever shows two transactions as mined. */
  lemma {:induction false} EveryRunWellFormed(run: seq<Event>, c: Config)
    requires PossibleRun(run, c)
    ensures WellFormed(After(run, c))
  {
    if run == [] {
    } else {
      var before, e := After(run[..|run| - 1], c), run[|run| - 1];
      EveryRunWellFormed(run[..|run| - 1], c);
      if e.Poll? {
        PassMoves(before, e.input, c);
      } else {
        PutKeeps(before, e.tx);
      }
    }
  }

  lemma PrefixPossible(run: seq<Event>, n: nat, c: Config)
    requires n <= |run| && PossibleRun(run, c)
    ensures PossibleRun(run[..n], c)
    decreases |run|
  {
    if n < |run| {
      PrefixPossible(run[..|run| - 1], n, c);
      assert run[..|run| - 1][..n] == run[..n];
    } else {
      assert run[..n] == run;
    }
  }

  predicate Final(s: Status) {
    s in {Cancelled, Aborted, Dropped, Confirmed}
  }

  lemma StatusStep(t: Table, e: Event, c: Config, k: Hash)
    requires WellFormed(t) && Possible(t, e, c) && k in t
    requires e.Poll? ==> Resent(e.input) !! t.Keys
    ensures k in Apply(t, e, c) && SameBroadcast(t[k], Apply(t, e, c)[k])
    ensures Apply(t, e, c)[k].status in Successors(t[k].status)
  {
    if e.Poll? {
      PassMoves(t, e.input, c);
    }
  }

  /**
   * Over a whole run, with fresh hashes: no row vanishes; a row that was cancelled or aborted stays
   * so, a dropped or confirmed one can only become aborted; and once a row is broadcast its hash,
   * sender, nonce and bid are fixed for good.
   */
  lemma {:induction false} StatusesOverRuns(run: seq<Event>, n: nat, c: Config, k: Hash)
    requires n <= |run| && PossibleRun(run, c) && FreshRun(run, c)
    requires k in After(run[..n], c)
    ensures k in After(run, c)
    ensures SameBroadcast(After(run[..n], c)[k], After(run, c)[k])
    ensures Final(After(run[..n], c)[k].status) ==>
      After(run, c)[k].status in Successors(After(run[..n], c)[k].status)
    decreases |run|
  {
    if n == |run| {
      assert run[..n] == run;
    } else {
      var prefix, e := run[..|run| - 1], run[|run| - 1];
      assert prefix[..n] == run[..n];
      FreshPrefix(run, c);
      StatusesOverRuns(prefix, n, c, k);
      EveryRunWellFormed(prefix, c);
      StatusStep(After(prefix, c), e, c, k);
      StatusesChain(After(run[..n], c)[k], After(prefix, c)[k], After(run, c)[k]);
    }
  }

  lemma FreshPrefix(run: seq<Event>, c: Config)
    requires run != [] && FreshRun(run, c)
    ensures FreshRun(run[..|run| - 1], c)
    ensures run[|run| - 1].Poll? ==> Resent(run[|run| - 1].input) !! After(run[..|run| - 1], c).Keys
  {
    var prefix := run[..|run| - 1];
    forall m | 0 <= m < |prefix| && prefix[m].Poll? ensures Resent(prefix[m].input) !! After(prefix[..m], c).Keys {
      assert prefix[..m] == run[..m] && run[m].Poll?;
    }
  }

  lemma StatusesChain(a: Tx, b: Tx, d: Tx)
    requires SameBroadcast(a, b) && SameBroadcast(b, d)
    requires Final(a.status) ==> b.status in Successors(a.status)
    requires d.status in Successors(b.status)
    ensures SameBroadcast(a, d) && (Final(a.status) ==> d.status in Successors(a.status))
  {
  }

  /** With honest hashes alone, a broadcast row's hash, sender, nonce and bid are fixed for good. */
  lemma {:induction false} BroadcastsOverRuns(run: seq<Event>, n: nat, c: Config, k: Hash)
    requires n <= |run| && PossibleRun(run, c) && HonestRun(run, c)
    requires k in After(run[..n], c)
    ensures k in After(run, c) && SameBroadcast(After(run[..n], c)[k], After(run, c)[k])
    decreases |run|
  {
    if n == |run| {
      assert run[..n] == run;
    } else {
      var prefix, e := run[..|run| - 1], run[|run| - 1];
      assert prefix[..n] == run[..n];
      HonestPrefix(run, c);
      BroadcastsOverRuns(prefix, n, c, k);
      EveryRunHasParents(prefix, c);
      if e.Poll? {
        PassKeepsParents(After(prefix, c), e.input, c);
      }
      assert SameBroadcast(After(prefix, c)[k], After(run, c)[k]);
    }
  }

  /** A row's ancestors: each outbid by the one before it, the last a signed meta-transaction. */
  ghost predicate Lineage(t: Table, line: seq<Hash>, k: Hash) {
    && line != [] && line[0] == k
    && (forall i :: 0 <= i < |line| ==> line[i] in t)
    && (forall i :: 0 <= i < |line| - 1 ==> Outbids(t[line[i + 1]], t[line[i]]))
    && !Replacement(t[line[|line| - 1]]) && t[line[|line| - 1]].txHash.Some?
  }

  lemma {:induction false} FollowParents(t: Table, k: Hash) returns (line: seq<Hash>)
    requires RowsOk(t) && HasParents(t) && k in t && Replacement(t[k])
    ensures Lineage(t, line, k) && |line| > 1
    decreases t[k].gasPrice.value
  {
    var p :| p in t && Outbids(t[p], t[k]);
    if Replacement(t[p]) {
      var rest := FollowParents(t, p);
      line := [k] + rest;
    } else {
      assert RowOk(p, t[p]);
      line := [k, p];
    }
  }

  lemma HonestPrefix(run: seq<Event>, c: Config)
    requires run != [] && HonestRun(run, c)
    ensures HonestRun(run[..|run| - 1], c)
    ensures run[|run| - 1].Poll? ==> Honest(After(run[..|run| - 1], c), run[|run| - 1].input, c)
  {
    var prefix := run[..|run| - 1];
    forall m | 0 <= m < |prefix| && prefix[m].Poll? ensures Honest(After(prefix[..m], c), prefix[m].input, c) {
      assert prefix[..m] == run[..m] && run[m].Poll?;
    }
  }

  lemma {:induction false} EveryRunHasParents(run: seq<Event>, c: Config)
    requires PossibleRun(run, c) && HonestRun(run, c)
    ensures WellFormed(After(run, c)) && HasParents(After(run, c))
  {
    EveryRunWellFormed(run, c);
    if run == [] {
    } else {
      var prefix, e := run[..|run| - 1], run[|run| - 1];
      HonestPrefix(run, c);
      EveryRunHasParents(prefix, c);
      var before, after := After(prefix, c), After(run, c);
      if e.Poll? {
        PassKeepsParents(before, e.input, c);
      } else {
        forall k | k in after && Replacement(after[k]) ensures exists p :: p in after && Outbids(after[p], after[k]) {
          var p :| p in before && Outbids(before[p], before[k]);
          assert Outbids(after[p], after[k]);
        }
      }
    }
  }

  /**
   * In every reachable table, every replacement descends through rows of its own slot with
   * strictly falling bids from a meta-transaction that was signed.
   */
  lemma EveryReplacementDescends(run: seq<Event>, c: Config, k: Hash)
    requires PossibleRun(run, c) && HonestRun(run, c)
    requires k in After(run, c) && Replacement(After(run, c)[k])
    ensures exists line :: Lineage(After(run, c), line, k)
  {
    EveryRunHasParents(run, c);
    var line := FollowParents(After(run, c), k);
  }
}
