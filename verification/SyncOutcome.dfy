/** The row every fetched copy ends up as after the sync loop, stale writes and exceptions included. */
module SyncOutcome {
  import opened Wrappers
  import opened Transactions
  import opened Phases
  import opened WatcherInvariants

  /** The rows a mined one sends away: broadcast under another hash for the same account and nonce. */
  predicate Competes(tx: Tx, winner: Tx) {
    && tx.from.Some? && tx.from == winner.from
    && tx.nonce.Some? && tx.nonce == winner.nonce
    && tx.txHash.Some? && tx.txHash != winner.txHash
  }

  /** The block date could not be had, or the node failed other than by not knowing the transaction. */
  predicate SyncThrows(tx: Tx, tick: SyncTick) {
    tick.blockDate.None? || (tx.txHash.Some? && tick.reply == RpcError)
  }

  /** No turn before turn `m` throws. */
  ghost predicate Reached(rows: seq<Tx>, ticks: nat -> SyncTick, m: nat)
    requires m <= |rows|
  {
    forall n :: 0 <= n < m ==> !SyncThrows(rows[n], ticks(n))
  }

  /** Turn `m` is reached and finds a competitor of the row mined. */
  ghost predicate Aborts(rows: seq<Tx>, ticks: nat -> SyncTick, m: nat, tx: Tx)
    requires m < |rows|
  {
    Reached(rows, ticks, m) && FoundMined(rows[m], ticks(m)) && Competes(tx, rows[m])
  }

  ghost predicate AbortedDuring(rows: seq<Tx>, ticks: nat -> SyncTick, from: nat, to: nat, tx: Tx)
    requires to <= |rows|
  {
    exists m :: from <= m < to && Aborts(rows, ticks, m, tx)
  }

  /** The row a turn writes for the copy it handles; none if it writes nothing. */
  function TurnRow(tx: Tx, tick: SyncTick): Option<Tx> {
    if FoundMined(tx, tick) then Some(tx.(status := Included, blockNumber := tick.reply.block))
    else if TurnStatus(tx, tick).Some? then Some(tx.(status := TurnStatus(tx, tick).value))
    else None
  }

  /**
   * What the first `n` turns make of the copy of turn `j`. Its own turn writes over whatever
   * happened before; failing that an abort before counts; and an abort after always does.
   */
  ghost function RowAfter(rows: seq<Tx>, ticks: nat -> SyncTick, n: nat, j: nat): Tx
    requires j < n <= |rows|
  {
    var own :=
      if Reached(rows, ticks, j) && TurnRow(rows[j], ticks(j)).Some? then TurnRow(rows[j], ticks(j)).value
      else if AbortedDuring(rows, ticks, 0, j, rows[j]) then rows[j].(status := Aborted)
      else rows[j];
    if AbortedDuring(rows, ticks, j + 1, n, rows[j]) then own.(status := Aborted) else own
  }

  /** One turn, on the row it handles and on any other. */
  lemma TurnOutcome(t: Table, tx: Tx, tick: SyncTick, k: Hash)
    requires k in t
    ensures k in SyncRow(t, tx, tick).state
    ensures SyncRow(t, tx, tick).state[k] ==
      if k == tx.refHash then (if TurnRow(tx, tick).Some? then TurnRow(tx, tick).value else t[k])
      else if FoundMined(tx, tick) && Competes(t[k], tx) then t[k].(status := Aborted)
      else t[k]
  {
    if !FoundMined(tx, tick) {
      TurnWrites(t, tx, tick);
    }
  }

  /** One turn more. */
  lemma {:induction false} LoopStep(t: Table, rows: seq<Tx>, i: nat, ticks: nat -> SyncTick, n: nat)
    requires i <= n < |rows|
    ensures SyncRows(t, rows[..n + 1], i, ticks)
         == var before := SyncRows(t, rows[..n], i, ticks);
            if before.ok then SyncRow(before.state, rows[n], ticks(n)) else before
    decreases n - i
  {
    var step := SyncRow(t, rows[i], ticks(i));
    assert rows[..n + 1][i] == rows[i];
    if i == n {
    } else {
      assert rows[..n][i] == rows[i];
      if step.ok {
        LoopStep(step.state, rows, i + 1, ticks, n);
      }
    }
  }

  lemma {:induction false} LoopReturns(t: Table, rows: seq<Tx>, ticks: nat -> SyncTick, n: nat)
    requires n <= |rows|
    ensures SyncRows(t, rows[..n], 0, ticks).ok == Reached(rows, ticks, n)
  {
    if n == 0 {
    } else {
      LoopReturns(t, rows, ticks, n - 1);
      LoopStep(t, rows, 0, ticks, n - 1);
    }
  }

  lemma AbortedNext(rows: seq<Tx>, ticks: nat -> SyncTick, from: nat, n: nat, tx: Tx)
    requires from <= n < |rows|
    ensures AbortedDuring(rows, ticks, from, n + 1, tx)
       <==> AbortedDuring(rows, ticks, from, n, tx) || Aborts(rows, ticks, n, tx)
  {
    if AbortedDuring(rows, ticks, from, n + 1, tx) && !Aborts(rows, ticks, n, tx) {
      var m :| from <= m < n + 1 && Aborts(rows, ticks, m, tx);
      assert m < n;
    }
  }

  /** Turn `n` of the loop, on a row it holds no copy of. */
  lemma OthersTurn(t: Table, rows: seq<Tx>, ticks: nat -> SyncTick, n: nat, k: Hash)
    requires n < |rows| && rows[n].refHash != k
    requires k in SyncRows(t, rows[..n], 0, ticks).state
    ensures k in SyncRows(t, rows[..n + 1], 0, ticks).state
    ensures SyncRows(t, rows[..n + 1], 0, ticks).state[k]
         == var row := SyncRows(t, rows[..n], 0, ticks).state[k];
            if Aborts(rows, ticks, n, row) then row.(status := Aborted) else row
  {
    LoopReturns(t, rows, ticks, n);
    LoopStep(t, rows, 0, ticks, n);
    TurnOutcome(SyncRows(t, rows[..n], 0, ticks).state, rows[n], ticks(n), k);
  }

  /** A row whose turn is not among the first `n` can only have been aborted by them. */
  lemma {:induction false} OthersAfter(t: Table, rows: seq<Tx>, ticks: nat -> SyncTick, n: nat, k: Hash)
    requires n <= |rows| && k in t && forall j :: 0 <= j < n ==> rows[j].refHash != k
    ensures k in SyncRows(t, rows[..n], 0, ticks).state
    ensures SyncRows(t, rows[..n], 0, ticks).state[k]
         == if AbortedDuring(rows, ticks, 0, n, t[k]) then t[k].(status := Aborted) else t[k]
  {
    if n == 0 {
    } else {
      OthersAfter(t, rows, ticks, n - 1, k);
      OthersTurn(t, rows, ticks, n - 1, k);
      AbortedNext(rows, ticks, 0, n - 1, t[k]);
    }
  }

  lemma OwnTurn(t: Table, rows: seq<Tx>, ticks: nat -> SyncTick, j: nat)
    requires j < |rows| && Current(t, rows, 0, Pending)
    ensures rows[j].refHash in SyncRows(t, rows[..j + 1], 0, ticks).state
    ensures SyncRows(t, rows[..j + 1], 0, ticks).state[rows[j].refHash] == RowAfter(rows, ticks, j + 1, j)
  {
    var k, before := rows[j].refHash, SyncRows(t, rows[..j], 0, ticks).state;
    OthersAfter(t, rows, ticks, j, k);
    LoopReturns(t, rows, ticks, j);
    LoopStep(t, rows, 0, ticks, j);
    TurnOutcome(before, rows[j], ticks(j), k);
    assert !AbortedDuring(rows, ticks, j + 1, j + 1, rows[j]);
  }

  /** A later turn aborts the row if it finds a competitor mined, and leaves it alone if not. */
  lemma RowAfterNext(rows: seq<Tx>, ticks: nat -> SyncTick, n: nat, j: nat)
    requires j < n < |rows|
    ensures var row := RowAfter(rows, ticks, n, j);
      && (forall winner :: Competes(row, winner) == Competes(rows[j], winner))
      && RowAfter(rows, ticks, n + 1, j) == if Aborts(rows, ticks, n, rows[j]) then row.(status := Aborted) else row
  {
    AbortedNext(rows, ticks, j + 1, n, rows[j]);
  }

  /** What the first `n` turns leave of the copy of turn `j`. */
  ghost predicate LeftBy(t: Table, rows: seq<Tx>, ticks: nat -> SyncTick, n: nat, j: nat)
    requires j < n <= |rows|
  {
    && rows[j].refHash in SyncRows(t, rows[..n], 0, ticks).state
    && SyncRows(t, rows[..n], 0, ticks).state[rows[j].refHash] == RowAfter(rows, ticks, n, j)
  }

  lemma CopyNext(t: Table, rows: seq<Tx>, ticks: nat -> SyncTick, n: nat, j: nat)
    requires j < n < |rows| && rows[j].refHash != rows[n].refHash && LeftBy(t, rows, ticks, n, j)
    ensures LeftBy(t, rows, ticks, n + 1, j)
  {
    OthersTurn(t, rows, ticks, n, rows[j].refHash);
    RowAfterNext(rows, ticks, n, j);
  }

  lemma {:induction false} CopyAfter(t: Table, rows: seq<Tx>, ticks: nat -> SyncTick, n: nat, j: nat)
    requires j < n <= |rows| && Current(t, rows, 0, Pending)
    ensures LeftBy(t, rows, ticks, n, j)
  {
    if n == j + 1 {
      OwnTurn(t, rows, ticks, j);
    } else {
      CopyAfter(t, rows, ticks, n - 1, j);
      CopyNext(t, rows, ticks, n - 1, j);
    }
  }

  /** After the loop, whether it ran through or not, every fetched row is exactly this. */
  lemma EveryOutcome(t: Table, rows: seq<Tx>, ticks: nat -> SyncTick, j: nat)
    requires j < |rows| && Current(t, rows, 0, Pending)
    ensures rows[j].refHash in SyncRows(t, rows, 0, ticks).state
    ensures SyncRows(t, rows, 0, ticks).state[rows[j].refHash] == RowAfter(rows, ticks, |rows|, j)
  {
    CopyAfter(t, rows, ticks, |rows|, j);
    assert rows[..|rows|] == rows;
  }

  /** And every other row is aborted if a competitor was found mined, and else as before. */
  lemma OtherOutcome(t: Table, rows: seq<Tx>, ticks: nat -> SyncTick, k: Hash)
    requires k in t && forall j :: 0 <= j < |rows| ==> rows[j].refHash != k
    ensures SyncRows(t, rows, 0, ticks).ok <==> forall n :: 0 <= n < |rows| ==> !SyncThrows(rows[n], ticks(n))
    ensures k in SyncRows(t, rows, 0, ticks).state
    ensures SyncRows(t, rows, 0, ticks).state[k]
         == if AbortedDuring(rows, ticks, 0, |rows|, t[k]) then t[k].(status := Aborted) else t[k]
  {
    OthersAfter(t, rows, ticks, |rows|, k);
    LoopReturns(t, rows, ticks, |rows|);
    assert rows[..|rows|] == rows;
  }

  /** A row is newly aborted only if another one of its account and nonce was found mined. */
  lemma AbortedForAReason(t: Table, rows: seq<Tx>, ticks: nat -> SyncTick, k: Hash) returns (m: nat)
    requires Current(t, rows, 0, Pending) && k in t && t[k].refHash == k && t[k].status != Aborted
    requires k in SyncRows(t, rows, 0, ticks).state && SyncRows(t, rows, 0, ticks).state[k].status == Aborted
    ensures m < |rows| && rows[m].refHash != k && Reached(rows, ticks, m)
    ensures FoundMined(rows[m], ticks(m)) && Competes(t[k], rows[m])
  {
    if j :| 0 <= j < |rows| && rows[j].refHash == k {
      EveryOutcome(t, rows, ticks, j);
      TurnStatuses(rows[j], ticks(j));
      if AbortedDuring(rows, ticks, 0, j, rows[j]) {
        m :| 0 <= m < j && Aborts(rows, ticks, m, rows[j]);
      } else {
        m :| j + 1 <= m < |rows| && Aborts(rows, ticks, m, rows[j]);
      }
    } else {
      OtherOutcome(t, rows, ticks, k);
      m :| 0 <= m < |rows| && Aborts(rows, ticks, m, t[k]);
    }
  }

  lemma PendingExactly(rows: seq<Tx>, ticks: nat -> SyncTick, j: nat)
    requires j < |rows| && AbortedDuring(rows, ticks, 0, |rows|, rows[j])
    ensures RowAfter(rows, ticks, |rows|, j).status in {Submitted, Mempool, Stuck} <==>
      && (forall m :: 0 <= m < |rows| && Aborts(rows, ticks, m, rows[j]) ==> m < j)
      && Reached(rows, ticks, j) && TurnStatus(rows[j], ticks(j)) in {Some(Mempool), Some(Stuck)}
  {
    assert !Aborts(rows, ticks, j, rows[j]);
    TurnStatuses(rows[j], ticks(j));
    if AbortedDuring(rows, ticks, j + 1, |rows|, rows[j]) {
      var m :| j + 1 <= m < |rows| && Aborts(rows, ticks, m, rows[j]);
    } else {
      var m :| 0 <= m < |rows| && Aborts(rows, ticks, m, rows[j]);
      assert m < j;
    }
  }

  /**
   * Which rows with a mined competitor are pending again after the loop: exactly those whose own
   * turn came after that of every competitor found mined, and wrote that the node still has the
   * transaction waiting.
   */
  lemma RevivedExactly(t: Table, rows: seq<Tx>, ticks: nat -> SyncTick, j: nat)
    requires j < |rows| && Current(t, rows, 0, Pending) && AbortedDuring(rows, ticks, 0, |rows|, rows[j])
    ensures rows[j].refHash in SyncRows(t, rows, 0, ticks).state
    ensures SyncRows(t, rows, 0, ticks).state[rows[j].refHash].status in {Submitted, Mempool, Stuck} <==>
      && (forall m :: 0 <= m < |rows| && Aborts(rows, ticks, m, rows[j]) ==> m < j)
      && Reached(rows, ticks, j) && TurnStatus(rows[j], ticks(j)) in {Some(Mempool), Some(Stuck)}
  {
    EveryOutcome(t, rows, ticks, j);
    PendingExactly(rows, ticks, j);
  }

  lemma TurnStatuses(tx: Tx, tick: SyncTick)
    ensures TurnStatus(tx, tick) in {None, Some(Included), Some(Dropped), Some(Mempool), Some(Stuck)}
    ensures TurnStatus(tx, tick) == Some(Included) <==> FoundMined(tx, tick)
  {
  }
}
