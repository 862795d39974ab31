/** What each phase keeps, and which status changes it can make, for any answers from outside. */
module WatcherInvariants {
  import opened Wrappers
  import opened Transactions
  import opened Phases

  // ---- invariants of the table -----------------------------------------------------------

  predicate RowOk(k: Hash, tx: Tx) {
    && tx.refHash == k
    && (if tx.status in {Unsubmitted, Cancelled}
        then tx.txHash.None? && tx.from.None? && tx.nonce.None?
        else tx.txHash.Some? && tx.from.Some? && tx.nonce.Some?)
    && (tx.txHash.Some? ==> tx.gasPrice.Some?)
    && (tx.status == Included ==> tx.blockNumber.Some?)
    && (Replacement(tx) ==> tx.txHash == Some(k))
  }

  ghost predicate RowsOk(t: Table) {
    forall k :: k in t ==> RowOk(k, t[k])
  }

  /** No row but the one under `key` holds the hash. */
  ghost predicate HashFree(t: Table, key: Hash, hash: Hash) {
    forall k :: k in t && k != key ==> t[k].txHash != Some(hash)
  }

  predicate SameHash(a: Tx, b: Tx) {
    a.txHash.Some? && a.txHash == b.txHash
  }

  ghost predicate UniqueHashes(t: Table) {
    forall j, k {:trigger SameHash(t[j], t[k])} :: j in t && k in t && SameHash(t[j], t[k]) ==> j == k
  }

  /** At most one transaction of a slot is on the chain. */
  ghost predicate OneSettledPerSlot(t: Table) {
    forall j, k {:trigger SameSlot(t[j], t[k])} ::
      j in t && k in t && Settled(t[j]) && Settled(t[k]) && SameSlot(t[j], t[k]) ==> j == k
  }

  ghost predicate WellFormed(t: Table) {
    RowsOk(t) && UniqueHashes(t) && OneSettledPerSlot(t)
  }

  /** Equal but for the fields that follow a transaction's progress on the chain. */
  predicate SameTx(a: Tx, b: Tx) {
    b.(status := a.status, blockNumber := a.blockNumber, gasUsed := a.gasUsed, txStatus := a.txStatus) == a
  }

  /** Writing one row keeps the table well formed if the row is, and does not newly settle. */
  lemma PutKeeps(t: Table, tx: Tx)
    requires WellFormed(t) && RowOk(tx.refHash, tx) && !HashTaken(t, tx)
    requires Settled(tx) ==> tx.refHash in t && Settled(t[tx.refHash]) && SameSlot(t[tx.refHash], tx)
    ensures WellFormed(Put(t, tx))
  {
    var t' := Put(t, tx);
    forall j, k | j in t' && k in t' && Settled(t'[j]) && Settled(t'[k]) && SameSlot(t'[j], t'[k])
      ensures j == k
    {
      assert j in t && k in t && SameSlot(t[j], t[k]);
    }
    forall j, k | j in t' && k in t' && SameHash(t'[j], t'[k])
      ensures j == k
    {
      if j != tx.refHash && k != tx.refHash {
        assert SameHash(t[j], t[k]);
      }
    }
  }

  /** A row that keeps its hash does not clash with another. */
  lemma OwnHashFree(t: Table, tx: Tx)
    requires UniqueHashes(t) && tx.refHash in t && t[tx.refHash].txHash == tx.txHash
    ensures !HashTaken(t, tx)
  {
    forall k | k in t && t[k].txHash.Some? && t[k].txHash == tx.txHash ensures k == tx.refHash {
      assert SameHash(t[k], t[tx.refHash]);
    }
  }

  /** Recording a mined row and aborting its rivals leaves it the only settled row of its slot. */
  lemma MinedKeeps(t: Table, mined: Tx)
    requires WellFormed(t) && RowOk(mined.refHash, mined) && mined.txHash.Some? && !HashTaken(t, mined)
    ensures WellFormed(AbortRivals(Put(t, mined), mined))
  {
    var t' := AbortRivals(Put(t, mined), mined);
    forall k | k in t' ensures RowOk(k, t'[k]) {
      assert k != mined.refHash ==> RowOk(k, t[k]);
    }
    forall k | k in t && k != mined.refHash && SameSlot(t[k], mined)
      ensures t'[k].status == Aborted
    {
      assert RowOk(k, t[k]);
    }
    forall j, k | j in t' && k in t' && Settled(t'[j]) && Settled(t'[k]) && SameSlot(t'[j], t'[k])
      ensures j == k
    {
      if j != mined.refHash && k != mined.refHash {
        assert SameSlot(t[j], t[k]);
      }
    }
    forall j, k | j in t' && k in t' && SameHash(t'[j], t'[k])
      ensures j == k
    {
      if j != mined.refHash && k != mined.refHash {
        assert SameHash(t[j], t[k]);
      }
    }
  }

  // ---- phase 1 ---------------------------------------------------------------------------

  /** What signing may make of an unsubmitted row. */
  predicate SignedFrom(a: Tx, b: Tx) {
    || b == a
    || b == a.(status := Cancelled)
    || (&& b.status == Submitted
        && b.(status := a.status, txHash := a.txHash, nonce := a.nonce, from := a.from, gas := a.gas) == a
        && b.txHash.Some? && b.nonce.Some? && b.from.Some? && b.gasPrice.Some? && b.data.Some?)
  }

  /** The copies still to be handled agree with the table. */
  ghost predicate Current(t: Table, rows: seq<Tx>, i: nat, keep: Tx -> bool) {
    && (forall n :: i <= n < |rows| ==> rows[n].refHash in t && t[rows[n].refHash] == rows[n] && keep(rows[n]))
    && (forall m, n :: 0 <= m < n < |rows| ==> rows[m].refHash != rows[n].refHash)
  }

  lemma PutSame(t: Table, tx: Tx)
    requires tx.refHash in t && t[tx.refHash] == tx
    ensures Put(t, tx) == t
  {
  }

  lemma NoHashFree(t: Table, tx: Tx)
    requires tx.txHash.None?
    ensures !HashTaken(t, tx)
  {
  }

  /** The row one turn of the sign loop writes, the old one if none. */
  lemma SignRowWrites(t: Table, tx: Tx, tick: SignTick, c: Config, balances: map<Address, real>) returns (b: Tx)
    requires RowOk(tx.refHash, tx) && tx.refHash in t && t[tx.refHash] == tx && IsUnsubmitted(tx)
    ensures SignRow(t, tx, tick, c, balances).state == Put(t, b) && b.refHash == tx.refHash
    ensures SignedFrom(tx, b) && RowOk(b.refHash, b) && !HashTaken(t, b)
  {
    b := SignRow(t, tx, tick, c, balances).state[tx.refHash];
    PutSame(t, tx);
    if b.txHash.None? {
      NoHashFree(t, b);
    }
  }

  lemma SignRowKeeps(t: Table, tx: Tx, tick: SignTick, c: Config, balances: map<Address, real>)
    requires WellFormed(t) && tx.refHash in t && t[tx.refHash] == tx && IsUnsubmitted(tx)
    ensures var t' := SignRow(t, tx, tick, c, balances).state;
      && WellFormed(t') && t'.Keys == t.Keys
      && (forall k :: k in t && k != tx.refHash ==> t'[k] == t[k])
      && SignedFrom(tx, t'[tx.refHash])
  {
    var b := SignRowWrites(t, tx, tick, c, balances);
    PutKeeps(t, b);
  }

  lemma {:induction false} SignRowsKeep(t: Table, rows: seq<Tx>, i: nat, ticks: nat -> SignTick, c: Config,
                                        balances: map<Address, real>)
    requires i <= |rows| && WellFormed(t) && Current(t, rows, i, IsUnsubmitted)
    ensures var t' := SignRows(t, rows, i, ticks, c, balances).state;
      && WellFormed(t') && t'.Keys == t.Keys
      && (forall k :: k in t ==> if IsUnsubmitted(t[k]) then SignedFrom(t[k], t'[k]) else t'[k] == t[k])
    decreases |rows| - i
  {
    if i == |rows| {
    } else {
      SignRowKeeps(t, rows[i], ticks(i), c, balances);
      var step := SignRow(t, rows[i], ticks(i), c, balances);
      if step.ok {
        CurrentStays(t, step.state, rows, i, IsUnsubmitted);
        SignRowsKeep(step.state, rows, i + 1, ticks, c, balances);
      }
    }
  }

  /** A turn that writes its own row leaves the copies of the others current. */
  lemma CurrentStays(t: Table, t': Table, rows: seq<Tx>, i: nat, keep: Tx -> bool)
    requires i < |rows| && Current(t, rows, i, keep) && t'.Keys == t.Keys
    requires forall k :: k in t && k != rows[i].refHash ==> t'[k] == t[k]
    ensures Current(t', rows, i + 1, keep)
  {
  }

  // ---- phase 2 ---------------------------------------------------------------------------

  /** A fetched copy whose row may since have been aborted, but otherwise not changed. */
  predicate StaleCopy(t: Table, tx: Tx) {
    && tx.refHash in t && Pending(tx)
    && t[tx.refHash].status in {tx.status, Aborted}
    && t[tx.refHash].(status := tx.status) == tx
  }

  ghost predicate StaleCopies(t: Table, rows: seq<Tx>, i: nat) {
    && (forall n :: i <= n < |rows| ==> StaleCopy(t, rows[n]))
    && (forall m, n :: 0 <= m < n < |rows| ==> rows[m].refHash != rows[n].refHash)
  }

  /** What happens to a row nobody holds a copy of. */
  predicate KeptOrAborted(a: Tx, b: Tx) {
    b == a || (b == a.(status := Aborted) && a.status !in {Unsubmitted, Cancelled})
  }

  predicate SyncedFrom(a: Tx, b: Tx) {
    && SameTx(a, b)
    && b.status in {a.status, Aborted, Mempool, Stuck, Included, Dropped}
  }

  /** The node reports the row as mined. */
  predicate FoundMined(tx: Tx, tick: SyncTick) {
    tick.blockDate.Some? && tx.txHash.Some? && tick.reply.Found? && tick.reply.hasHash && tick.reply.block.Some?
  }

  /** The status a turn of the sync loop writes to its own row; none if it writes nothing. */
  function TurnStatus(tx: Tx, tick: SyncTick): Option<Status> {
    if tick.blockDate.None? || tx.txHash.None? then None
    else
      var expired := tx.expectedAt <= tick.blockDate.value;
      match tick.reply
      case NotFoundTypeError => if expired then Some(Dropped) else None
      case Found(hasHash, block) =>
        if !hasHash then None
        else if block.Some? then Some(Included)
        else if expired then Some(Stuck)
        else if tx.status != Mempool then Some(Mempool)
        else None
      case _ => None
  }

  /** Without a mined row a turn writes at most the copy it holds, with a new status. */
  lemma TurnWrites(t: Table, tx: Tx, tick: SyncTick)
    requires !FoundMined(tx, tick)
    ensures var s := TurnStatus(tx, tick);
      SyncRow(t, tx, tick).state == (if s.Some? then Put(t, tx.(status := s.value)) else t)
    ensures TurnStatus(tx, tick) in {None, Some(Dropped), Some(Mempool), Some(Stuck)}
  {
  }

  lemma CopyWithStatus(t: Table, tx: Tx, s: Status)
    requires RowsOk(t) && StaleCopy(t, tx) && s in {Dropped, Mempool, Stuck}
    ensures var b := tx.(status := s); SyncedFrom(t[tx.refHash], b) && RowOk(b.refHash, b)
  {
    assert RowOk(tx.refHash, t[tx.refHash]);
  }

  lemma UnminedRowKeeps(t: Table, tx: Tx, tick: SyncTick)
    requires WellFormed(t) && StaleCopy(t, tx) && !FoundMined(tx, tick)
    ensures var t' := SyncRow(t, tx, tick).state;
      && WellFormed(t') && t'.Keys == t.Keys
      && (forall k :: k in t && k != tx.refHash ==> t'[k] == t[k])
      && SyncedFrom(t[tx.refHash], t'[tx.refHash])
  {
    var s := TurnStatus(tx, tick);
    TurnWrites(t, tx, tick);
    if s.Some? {
      var b := tx.(status := s.value);
      CopyWithStatus(t, tx, s.value);
      OwnHashFree(t, b);
      PutKeeps(t, b);
    }
  }

  lemma MinedRowKeeps(t: Table, tx: Tx, tick: SyncTick)
    requires WellFormed(t) && StaleCopy(t, tx) && FoundMined(tx, tick)
    ensures var t' := SyncRow(t, tx, tick).state;
      && WellFormed(t') && t'.Keys == t.Keys
      && (forall k :: k in t && k != tx.refHash ==> KeptOrAborted(t[k], t'[k]))
      && SyncedFrom(t[tx.refHash], t'[tx.refHash])
  {
    var mined := tx.(status := Included, blockNumber := tick.reply.block);
    assert RowOk(tx.refHash, t[tx.refHash]);
    OwnHashFree(t, mined);
    MinedKeeps(t, mined);
    var t' := AbortRivals(Put(t, mined), mined);
    assert SyncRow(t, tx, tick).state == t';
    forall k | k in t && k != tx.refHash ensures KeptOrAborted(t[k], t'[k]) {
      assert RowOk(k, t[k]);
    }
  }

  lemma SyncRowKeeps(t: Table, tx: Tx, tick: SyncTick)
    requires WellFormed(t) && StaleCopy(t, tx)
    ensures var t' := SyncRow(t, tx, tick).state;
      && WellFormed(t') && t'.Keys == t.Keys
      && (forall k :: k in t && k != tx.refHash ==> KeptOrAborted(t[k], t'[k]))
      && SyncedFrom(t[tx.refHash], t'[tx.refHash])
  {
    if FoundMined(tx, tick) {
      MinedRowKeeps(t, tx, tick);
    } else {
      UnminedRowKeeps(t, tx, tick);
    }
  }

  lemma StaleCopiesStay(t: Table, t': Table, rows: seq<Tx>, i: nat)
    requires i < |rows| && StaleCopies(t, rows, i) && t'.Keys == t.Keys
    requires forall k :: k in t && k != rows[i].refHash ==> KeptOrAborted(t[k], t'[k])
    ensures StaleCopies(t', rows, i + 1)
  {
    forall n | i + 1 <= n < |rows| ensures StaleCopy(t', rows[n]) {
      assert StaleCopy(t, rows[n]);
      assert KeptOrAborted(t[rows[n].refHash], t'[rows[n].refHash]);
    }
  }

  /** The rows still to be handled change by what the node says; the others are at most aborted. */
  ghost predicate SyncedRest(t: Table, t': Table, rows: seq<Tx>, i: nat) {
    && t'.Keys == t.Keys
    && (forall n :: i <= n < |rows| && rows[n].refHash in t ==> SyncedFrom(t[rows[n].refHash], t'[rows[n].refHash]))
    && (forall k {:trigger NotAhead(rows, i, k)} :: k in t && NotAhead(rows, i, k) ==> KeptOrAborted(t[k], t'[k]))
  }

  ghost predicate NotAhead(rows: seq<Tx>, i: nat, k: Hash) {
    forall n :: i <= n < |rows| ==> rows[n].refHash != k
  }

  lemma SyncedRestStep(t: Table, t1: Table, t2: Table, rows: seq<Tx>, i: nat)
    requires i < |rows| && StaleCopies(t, rows, i) && t1.Keys == t.Keys
    requires forall k :: k in t && k != rows[i].refHash ==> KeptOrAborted(t[k], t1[k])
    requires SyncedFrom(t[rows[i].refHash], t1[rows[i].refHash])
    requires SyncedRest(t1, t2, rows, i + 1)
    ensures SyncedRest(t, t2, rows, i)
  {
    forall n | i <= n < |rows| ensures SyncedFrom(t[rows[n].refHash], t2[rows[n].refHash]) {
      var k := rows[n].refHash;
      if n == i {
        assert NotAhead(rows, i + 1, k);
        assert KeptOrAborted(t1[k], t2[k]);
      } else {
        assert StaleCopy(t, rows[n]) && KeptOrAborted(t[k], t1[k]) && SyncedFrom(t1[k], t2[k]);
      }
    }
    forall k | k in t && NotAhead(rows, i, k) ensures KeptOrAborted(t[k], t2[k]) {
      assert NotAhead(rows, i + 1, k);
      assert KeptOrAborted(t[k], t1[k]) && KeptOrAborted(t1[k], t2[k]);
    }
  }

  lemma {:induction false} SyncRowsKeep(t: Table, rows: seq<Tx>, i: nat, ticks: nat -> SyncTick)
    requires i <= |rows| && WellFormed(t) && StaleCopies(t, rows, i)
    ensures WellFormed(SyncRows(t, rows, i, ticks).state)
    ensures SyncedRest(t, SyncRows(t, rows, i, ticks).state, rows, i)
    decreases |rows| - i
  {
    if i == |rows| {
    } else {
      SyncRowKeeps(t, rows[i], ticks(i));
      var step := SyncRow(t, rows[i], ticks(i));
      StaleCopiesStay(t, step.state, rows, i);
      if step.ok {
        SyncRowsKeep(step.state, rows, i + 1, ticks);
      } else {
        assert step.state == t;
      }
      SyncedRestStep(t, step.state, SyncRows(t, rows, i, ticks).state, rows, i);
    }
  }

  // ---- phase 3 ---------------------------------------------------------------------------

  predicate Outbids(parent: Tx, bid: Tx) {
    && SameSlot(parent, bid)
    && parent.gasPrice.Some? && bid.gasPrice.Some? && parent.gasPrice.value < bid.gasPrice.value
  }

  /** Every row the service wrote itself outbids some row of the same slot. */
  ghost predicate HasParents(t: Table) {
    forall k :: k in t && Replacement(t[k]) ==> exists p :: p in t && Outbids(t[p], t[k])
  }

  /** The hash names the transaction: a hash already on file stands for this very transfer. */
  predicate HonestHash(t: Table, bid: Tx) {
    bid.refHash in t ==>
      && Replacement(t[bid.refHash])
      && SameSlot(t[bid.refHash], bid) && t[bid.refHash].gasPrice == bid.gasPrice
  }

  ghost predicate HonestBids(t: Table, rows: seq<Tx>, i: nat, target: nat, ticks: nat -> UnstickTick, c: Config)
    requires i <= |rows|
    decreases |rows| - i
  {
    i < |rows| ==>
      && (rows[i].from.Some? && rows[i].nonce.Some? && ticks(i).hash.Some? ==>
            HonestHash(t, ReplacementFor(rows[i], ticks(i).hash.value, target, ticks(i).now, c)))
      && HonestBids(UnstickRow(t, rows[i], target, ticks(i), c).state, rows, i + 1, target, ticks, c)
  }

  /** The slot, hash and bid of a broadcast row never change. */
  predicate SameBroadcast(a: Tx, b: Tx) {
    && b.data == a.data && b.gasPrice == a.gasPrice
    && (a.txHash.Some? ==> b.txHash == a.txHash && b.from == a.from && b.nonce == a.nonce)
  }

  ghost predicate BroadcastsKept(t: Table, t': Table) {
    forall k :: k in t ==> k in t' && SameBroadcast(t[k], t'[k])
  }

  function SentHashes(n: nat, ticks: nat -> UnstickTick): (hs: set<Hash>)
    ensures forall h :: h in hs <==> exists i :: 0 <= i < n && ticks(i).hash == Some(h)
  {
    if n == 0 then {}
    else SentHashes(n - 1, ticks) + (if ticks(n - 1).hash.Some? then {ticks(n - 1).hash.value} else {})
  }

  lemma UnstickRowKeeps(t: Table, tx: Tx, target: nat, tick: UnstickTick, c: Config)
    requires WellFormed(t)
    ensures var t' := UnstickRow(t, tx, target, tick, c).state;
      && WellFormed(t') && t.Keys <= t'.Keys
      && (forall k :: k in t && tick.hash != Some(k) ==> t'[k] == t[k])
      && (forall k :: k in t' && (k !in t || t'[k] != t[k]) ==>
            tick.hash == Some(k) && Replacement(t'[k]) && t'[k].status == Submitted)
  {
    if UnstickRow(t, tx, target, tick, c).state != t {
      var bid := ReplacementFor(tx, tick.hash.value, target, tick.now, c);
      assert UnstickRow(t, tx, target, tick, c).state == Put(t, bid);
      PutKeeps(t, bid);
    }
  }

  lemma {:induction false} UnstickRowsKeep(t: Table, rows: seq<Tx>, i: nat, target: nat, ticks: nat -> UnstickTick,
                                           c: Config)
    requires i <= |rows| && WellFormed(t)
    ensures var t' := UnstickRows(t, rows, i, target, ticks, c).state;
      && WellFormed(t') && t.Keys <= t'.Keys
      && (forall k :: k in t' && (k !in t || t'[k] != t[k]) ==>
            k in SentHashes(|rows|, ticks) && Replacement(t'[k]) && t'[k].status == Submitted)
    decreases |rows| - i
  {
    if i == |rows| {
    } else {
      UnstickRowKeeps(t, rows[i], target, ticks(i), c);
      var step := UnstickRow(t, rows[i], target, ticks(i), c);
      assert ticks(i).hash.Some? ==> ticks(i).hash.value in SentHashes(|rows|, ticks);
      if step.ok {
        UnstickRowsKeep(step.state, rows, i + 1, target, ticks, c);
      }
    }
  }

  /** The fetched rows still stand in the table with the same slot and bid. */
  ghost predicate OnFile(t: Table, rows: seq<Tx>, i: nat) {
    forall n :: i <= n < |rows| ==>
      && rows[n].refHash in t && rows[n].gasPrice.Some?
      && SameSlot(t[rows[n].refHash], rows[n]) && t[rows[n].refHash].gasPrice == rows[n].gasPrice
  }

  /** The new row outbids the one it replaces, and the others keep their parents. */
  lemma BidHasParents(t: Table, tx: Tx, bid: Tx)
    requires RowsOk(t) && HasParents(t) && tx.refHash in t && bid.refHash != tx.refHash && HonestHash(t, bid)
    requires Outbids(t[tx.refHash], bid)
    ensures HasParents(Put(t, bid))
  {
    var t' := Put(t, bid);
    forall k | k in t' && Replacement(t'[k]) ensures exists p :: p in t' && Outbids(t'[p], t'[k]) {
      if k == bid.refHash {
        assert Outbids(t'[tx.refHash], t'[k]);
      } else {
        var p :| p in t && Outbids(t[p], t[k]);
        assert Outbids(t'[p], t'[k]);
      }
    }
  }

  lemma UnstickRowParents(t: Table, tx: Tx, target: nat, tick: UnstickTick, c: Config)
    requires WellFormed(t) && HasParents(t)
    requires tx.refHash in t && tx.gasPrice.Some? && SameSlot(t[tx.refHash], tx)
        && t[tx.refHash].gasPrice == tx.gasPrice
    requires tick.hash.Some? ==> HonestHash(t, ReplacementFor(tx, tick.hash.value, target, tick.now, c))
    ensures var t' := UnstickRow(t, tx, target, tick, c).state;
      HasParents(t') && BroadcastsKept(t, t')
  {
    if UnstickRow(t, tx, target, tick, c).state != t {
      var bid := ReplacementFor(tx, tick.hash.value, target, tick.now, c);
      BidWritten(t, tx, target, tick, c);
      BidHasParents(t, tx, bid);
      BidKeepsBroadcasts(t, bid);
    }
  }

  /** A turn that writes something writes a bid above the row it replaces. */
  lemma BidWritten(t: Table, tx: Tx, target: nat, tick: UnstickTick, c: Config)
    requires UnstickRow(t, tx, target, tick, c).state != t
    requires tx.refHash in t && tx.gasPrice.Some? && SameSlot(t[tx.refHash], tx)
        && t[tx.refHash].gasPrice == tx.gasPrice
    requires tick.hash.Some? ==> HonestHash(t, ReplacementFor(tx, tick.hash.value, target, tick.now, c))
    ensures tick.hash.Some?
    ensures var bid := ReplacementFor(tx, tick.hash.value, target, tick.now, c);
      && UnstickRow(t, tx, target, tick, c).state == Put(t, bid)
      && Outbids(t[tx.refHash], bid) && bid.refHash != tx.refHash
      && Replacement(bid) && bid.txHash == Some(bid.refHash)
  {
  }

  lemma BidKeepsBroadcasts(t: Table, bid: Tx)
    requires RowsOk(t) && HonestHash(t, bid) && Replacement(bid) && bid.txHash == Some(bid.refHash)
    ensures BroadcastsKept(t, Put(t, bid))
  {
    if bid.refHash in t {
      assert RowOk(bid.refHash, t[bid.refHash]);
    }
  }

  lemma {:induction false} UnstickRowsParents(t: Table, rows: seq<Tx>, i: nat, target: nat,
                                              ticks: nat -> UnstickTick, c: Config)
    requires i <= |rows| && WellFormed(t) && HasParents(t) && OnFile(t, rows, i)
    requires HonestBids(t, rows, i, target, ticks, c)
    ensures var t' := UnstickRows(t, rows, i, target, ticks, c).state;
      HasParents(t') && BroadcastsKept(t, t')
    decreases |rows| - i
  {
    if i == |rows| {
    } else {
      var t1 := UnstickRow(t, rows[i], target, ticks(i), c).state;
      UnstickRowParents(t, rows[i], target, ticks(i), c);
      if UnstickRow(t, rows[i], target, ticks(i), c).ok {
        UnstickRowKeeps(t, rows[i], target, ticks(i), c);
        OnFileStays(t, t1, rows, i);
        UnstickRowsParents(t1, rows, i + 1, target, ticks, c);
        BroadcastsChain(t, t1, UnstickRows(t, rows, i, target, ticks, c).state);
      }
    }
  }

  lemma BroadcastsChain(t: Table, t1: Table, t2: Table)
    requires BroadcastsKept(t, t1) && BroadcastsKept(t1, t2)
    ensures BroadcastsKept(t, t2)
  {
    forall k | k in t ensures k in t2 && SameBroadcast(t[k], t2[k]) {
      assert k in t1 && SameBroadcast(t[k], t1[k]) && SameBroadcast(t1[k], t2[k]);
    }
  }

  lemma OnFileStays(t: Table, t': Table, rows: seq<Tx>, i: nat)
    requires RowsOk(t) && OnFile(t, rows, i) && BroadcastsKept(t, t')
    ensures OnFile(t', rows, i + 1)
  {
    forall n | i + 1 <= n < |rows|
      ensures rows[n].refHash in t' && SameSlot(t'[rows[n].refHash], rows[n])
      ensures t'[rows[n].refHash].gasPrice == rows[n].gasPrice
    {
      assert RowOk(rows[n].refHash, t[rows[n].refHash]);
      assert SameBroadcast(t[rows[n].refHash], t'[rows[n].refHash]);
    }
  }

  // ---- phase 4 ---------------------------------------------------------------------------

  predicate ConfirmedFrom(a: Tx, b: Tx) {
    SameTx(a, b) && b.status in {Included, Confirmed, Submitted, Mempool}
  }

  /** The row one turn of the confirm loop writes, the old one if none. */
  lemma ConfirmRowWrites(t: Table, tx: Tx, head: nat, tick: ConfirmTick, c: Config) returns (b: Tx)
    requires RowOk(tx.refHash, tx) && tx.refHash in t && t[tx.refHash] == tx && IsIncluded(tx)
    ensures ConfirmRow(t, tx, head, tick, c).state == Put(t, b) && b.refHash == tx.refHash
    ensures b.txHash == tx.txHash && SameSlot(tx, b) && ConfirmedFrom(tx, b) && RowOk(b.refHash, b)
  {
    b := ConfirmRow(t, tx, head, tick, c).state[tx.refHash];
    PutSame(t, tx);
  }

  lemma ConfirmRowKeeps(t: Table, tx: Tx, head: nat, tick: ConfirmTick, c: Config)
    requires WellFormed(t) && tx.refHash in t && t[tx.refHash] == tx && IsIncluded(tx)
    ensures var t' := ConfirmRow(t, tx, head, tick, c).state;
      && WellFormed(t') && t'.Keys == t.Keys
      && (forall k :: k in t && k != tx.refHash ==> t'[k] == t[k])
      && ConfirmedFrom(tx, t'[tx.refHash])
  {
    var b := ConfirmRowWrites(t, tx, head, tick, c);
    OwnHashFree(t, b);
    PutKeeps(t, b);
  }

  lemma {:induction false} ConfirmRowsKeep(t: Table, rows: seq<Tx>, i: nat, head: nat, ticks: nat -> ConfirmTick,
                                           c: Config)
    requires i <= |rows| && WellFormed(t) && Current(t, rows, i, IsIncluded)
    ensures var t' := ConfirmRows(t, rows, i, head, ticks, c).state;
      && WellFormed(t') && t'.Keys == t.Keys
      && (forall k :: k in t ==> if IsIncluded(t[k]) then ConfirmedFrom(t[k], t'[k]) else t'[k] == t[k])
    decreases |rows| - i
  {
    if i == |rows| {
    } else {
      ConfirmRowKeeps(t, rows[i], head, ticks(i), c);
      var step := ConfirmRow(t, rows[i], head, ticks(i), c);
      if step.ok {
        ConfirmRowsKeep(step.state, rows, i + 1, head, ticks, c);
      }
    }
  }
}
