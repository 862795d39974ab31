/** The row every fetched copy ends up as after the confirm loop, from what the node answered. */
module ConfirmOutcome {
  import opened Wrappers
  import opened Transactions
  import opened Phases
  import opened WatcherInvariants

  /** The row was found in a block that has enough blocks on top of it. */
  predicate Buried(tx: Tx, head: nat, tick: ConfirmTick, c: Config) {
    && tx.txHash.Some? && tx.blockNumber.Some?
    && tick.reply.Found? && tick.reply.block.Some?
    && tx.blockNumber.value + c.blocksUntilConfirmed < head
  }

  /** The node failed, or gave a null answer, or has no receipt for a buried row. */
  predicate ConfirmThrows(tx: Tx, head: nat, tick: ConfirmTick, c: Config) {
    && tx.txHash.Some? && tx.blockNumber.Some?
    && (tick.reply in {RpcError, NotFoundTypeError, NullReply}
        || (Buried(tx, head, tick, c) && tick.receipt.None?))
  }

  /** No turn before turn `m` throws. */
  ghost predicate Reached(rows: seq<Tx>, head: nat, ticks: nat -> ConfirmTick, c: Config, m: nat)
    requires m <= |rows|
  {
    forall n :: 0 <= n < m ==> !ConfirmThrows(rows[n], head, ticks(n), c)
  }

  /** What a turn makes of its own row. */
  predicate Turned(tx: Tx, head: nat, tick: ConfirmTick, c: Config, row: Tx) {
    if tx.txHash.None? || tx.blockNumber.None? then row == tx
    else if tick.reply.NoReply? then row == tx.(status := Submitted)
    else if tick.reply.Found? && tick.reply.block.None? then row == tx.(status := Mempool, blockNumber := None)
    else if Buried(tx, head, tick, c) && tick.receipt.Some? then
      && row == tx.(status := Confirmed, gasUsed := row.gasUsed, txStatus := row.txStatus)
      && row.gasUsed == Some(tick.receipt.value.gasUsed)
      && row.txStatus == (if tick.receipt.value.status.Some? then tick.receipt.value.status else tx.txStatus)
    else row == tx
  }

  lemma TurnOutcome(t: Table, tx: Tx, head: nat, tick: ConfirmTick, c: Config)
    requires tx.refHash in t && t[tx.refHash] == tx
    ensures tx.refHash in ConfirmRow(t, tx, head, tick, c).state
    ensures Turned(tx, head, tick, c, ConfirmRow(t, tx, head, tick, c).state[tx.refHash])
  {
  }

  /** One turn more. */
  lemma {:induction false} LoopStep(t: Table, rows: seq<Tx>, i: nat, head: nat, ticks: nat -> ConfirmTick, c: Config,
                                    n: nat)
    requires i <= n < |rows|
    ensures ConfirmRows(t, rows[..n + 1], i, head, ticks, c)
         == var before := ConfirmRows(t, rows[..n], i, head, ticks, c);
            if before.ok then ConfirmRow(before.state, rows[n], head, ticks(n), c) else before
    decreases n - i
  {
    var step := ConfirmRow(t, rows[i], head, ticks(i), c);
    assert rows[..n + 1][i] == rows[i];
    if i == n {
    } else {
      assert rows[..n][i] == rows[i];
      if step.ok {
        LoopStep(step.state, rows, i + 1, head, ticks, c, n);
      }
    }
  }

  lemma {:induction false} LoopReturns(t: Table, rows: seq<Tx>, head: nat, ticks: nat -> ConfirmTick, c: Config, n: nat)
    requires n <= |rows|
    ensures ConfirmRows(t, rows[..n], 0, head, ticks, c).ok == Reached(rows, head, ticks, c, n)
  {
    if n == 0 {
    } else {
      LoopReturns(t, rows, head, ticks, c, n - 1);
      LoopStep(t, rows, 0, head, ticks, c, n - 1);
    }
  }

  /** Writing a row touches no other. */
  lemma TurnElsewhere(t: Table, tx: Tx, head: nat, tick: ConfirmTick, c: Config, k: Hash)
    requires tx.refHash != k
    ensures k in ConfirmRow(t, tx, head, tick, c).state <==> k in t
    ensures k in t ==> ConfirmRow(t, tx, head, tick, c).state[k] == t[k]
  {
  }

  /** The first `n` turns touch no row but those they hold a copy of. */
  lemma {:induction false} OthersStay(t: Table, rows: seq<Tx>, head: nat, ticks: nat -> ConfirmTick, c: Config, n: nat,
                                      k: Hash)
    requires n <= |rows| && forall j :: 0 <= j < n ==> rows[j].refHash != k
    ensures k in ConfirmRows(t, rows[..n], 0, head, ticks, c).state <==> k in t
    ensures k in t ==> ConfirmRows(t, rows[..n], 0, head, ticks, c).state[k] == t[k]
  {
    if n == 0 {
    } else {
      OthersStay(t, rows, head, ticks, c, n - 1, k);
      LoopStep(t, rows, 0, head, ticks, c, n - 1);
      TurnElsewhere(ConfirmRows(t, rows[..n - 1], 0, head, ticks, c).state, rows[n - 1], head, ticks(n - 1), c, k);
    }
  }

  /** What the loop up to turn `n` leaves of the copy of turn `j`. */
  ghost predicate LeftBy(t: Table, rows: seq<Tx>, head: nat, ticks: nat -> ConfirmTick, c: Config, n: nat, j: nat)
    requires j < n <= |rows|
  {
    var after := ConfirmRows(t, rows[..n], 0, head, ticks, c).state;
    && rows[j].refHash in after
    && (if Reached(rows, head, ticks, c, j) then Turned(rows[j], head, ticks(j), c, after[rows[j].refHash])
        else after[rows[j].refHash] == rows[j])
  }

  lemma OwnTurn(t: Table, rows: seq<Tx>, head: nat, ticks: nat -> ConfirmTick, c: Config, j: nat)
    requires j < |rows| && Current(t, rows, 0, IsIncluded)
    ensures LeftBy(t, rows, head, ticks, c, j + 1, j)
  {
    OthersStay(t, rows, head, ticks, c, j, rows[j].refHash);
    LoopReturns(t, rows, head, ticks, c, j);
    LoopStep(t, rows, 0, head, ticks, c, j);
    if Reached(rows, head, ticks, c, j) {
      TurnOutcome(ConfirmRows(t, rows[..j], 0, head, ticks, c).state, rows[j], head, ticks(j), c);
    }
  }

  lemma CopyNext(t: Table, rows: seq<Tx>, head: nat, ticks: nat -> ConfirmTick, c: Config, n: nat, j: nat)
    requires j < n < |rows| && rows[n].refHash != rows[j].refHash && LeftBy(t, rows, head, ticks, c, n, j)
    ensures LeftBy(t, rows, head, ticks, c, n + 1, j)
  {
    LoopStep(t, rows, 0, head, ticks, c, n);
    TurnElsewhere(ConfirmRows(t, rows[..n], 0, head, ticks, c).state, rows[n], head, ticks(n), c, rows[j].refHash);
  }

  /** A row stays as its own turn left it. */
  lemma {:induction false} CopyAfter(t: Table, rows: seq<Tx>, head: nat, ticks: nat -> ConfirmTick, c: Config, n: nat,
                                     j: nat)
    requires j < n <= |rows| && Current(t, rows, 0, IsIncluded)
    ensures LeftBy(t, rows, head, ticks, c, n, j)
  {
    if n == j + 1 {
      OwnTurn(t, rows, head, ticks, c, j);
    } else {
      CopyAfter(t, rows, head, ticks, c, n - 1, j);
      CopyNext(t, rows, head, ticks, c, n - 1, j);
    }
  }

  /**
   * After the loop, whether it ran through or not, a fetched row with a hash and a block is
   * confirmed exactly if its turn came, the node shows it in a block, more blocks than configured
   * lie above it and there is a receipt; submitted again exactly if the answer was absent; and back
   * in the pool, without a block, exactly if the answer named none. Otherwise it is as before.
   */
  lemma ConfirmedExactly(t: Table, rows: seq<Tx>, head: nat, ticks: nat -> ConfirmTick, c: Config, j: nat)
    requires j < |rows| && Current(t, rows, 0, IsIncluded)
    ensures rows[j].refHash in ConfirmRows(t, rows, 0, head, ticks, c).state
    ensures var tx, tick, row := rows[j], ticks(j), ConfirmRows(t, rows, 0, head, ticks, c).state[rows[j].refHash];
      var asked := Reached(rows, head, ticks, c, j) && tx.txHash.Some? && tx.blockNumber.Some?;
      && (row.status == Confirmed <==>
          && asked && tick.reply.Found? && tick.reply.block.Some? && tick.receipt.Some?
          && tx.blockNumber.value + c.blocksUntilConfirmed < head)
      && (row.status == Submitted <==> asked && tick.reply.NoReply?)
      && (row.status == Mempool <==> asked && tick.reply.Found? && tick.reply.block.None?)
      && (row.status == Confirmed ==>
          && row == tx.(status := Confirmed, gasUsed := row.gasUsed, txStatus := row.txStatus)
          && row.gasUsed == Some(tick.receipt.value.gasUsed)
          && row.txStatus == (if tick.receipt.value.status.Some? then tick.receipt.value.status else tx.txStatus))
      && (row.status == Submitted ==> row == tx.(status := Submitted))
      && (row.status == Mempool ==> row == tx.(status := Mempool, blockNumber := None))
      && (row.status !in {Confirmed, Submitted, Mempool} ==> row == tx)
  {
    CopyAfter(t, rows, head, ticks, c, |rows|, j);
    assert rows[..|rows|] == rows;
  }

  /** A row is newly confirmed only on such an answer about it. */
  lemma NewlyConfirmed(t: Table, rows: seq<Tx>, head: nat, ticks: nat -> ConfirmTick, c: Config, k: Hash)
    returns (j: nat)
    requires Current(t, rows, 0, IsIncluded) && k in t && t[k].status != Confirmed
    requires k in ConfirmRows(t, rows, 0, head, ticks, c).state
    requires ConfirmRows(t, rows, 0, head, ticks, c).state[k].status == Confirmed
    ensures j < |rows| && rows[j].refHash == k && Buried(rows[j], head, ticks(j), c) && ticks(j).receipt.Some?
    ensures ConfirmRows(t, rows, 0, head, ticks, c).state[k].blockNumber == rows[j].blockNumber
  {
    if forall i :: 0 <= i < |rows| ==> rows[i].refHash != k {
      OthersStay(t, rows, head, ticks, c, |rows|, k);
    }
    assert rows[..|rows|] == rows;
    j :| 0 <= j < |rows| && rows[j].refHash == k;
    ConfirmedExactly(t, rows, head, ticks, c, j);
  }
}
