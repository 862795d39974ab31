/** Which replacements the unstick loop leaves in the table, from what the outside answered. */
module UnstickOutcome {
  import opened Wrappers
  import opened Transactions
  import opened Phases
  import opened WatcherInvariants

  /** The row was sent with no price on file, or with less than the price now asked. */
  predicate Underpriced(tx: Tx, target: nat) {
    tx.gasPrice.None? || tx.gasPrice.value < target
  }

  /** The sender of a row to be outbid is not one of the configured signers. */
  predicate UnstickThrows(tx: Tx, target: nat, c: Config) {
    tx.from.Some? && Underpriced(tx, target) && tx.from.value !in c.signers
  }

  /** No turn before turn `m` throws. */
  ghost predicate Reached(rows: seq<Tx>, target: nat, c: Config, m: nat)
    requires m <= |rows|
  {
    forall n :: 0 <= n < m ==> !UnstickThrows(rows[n], target, c)
  }

  /** The signer of the row sends the transfer that is to replace it, and the node takes it. */
  predicate Resends(tx: Tx, target: nat, tick: UnstickTick, c: Config) {
    && tx.from.Some? && tx.from.value in c.signers && tx.nonce.Some?
    && Underpriced(tx, target) && tick.hash.Some?
  }

  /** An empty transfer of the sender to itself with the same nonce, at the price asked. */
  predicate Replaces(row: Tx, tx: Tx, hash: Hash, target: nat, now: int, c: Config) {
    && row.refHash == hash && row.txHash == Some(hash) && row.status == Submitted
    && row.from == tx.from && row.nonce == tx.nonce && row.gasPrice == Some(target)
    && row.to == tx.from && row.value == Some(0) && row.data == None && row.gas == Some(21000)
    && row.blockNumber == None && row.gasUsed == None && row.txStatus == None && row.apiKey == None
    && row.expectedAt == now + c.expectedMinedMs
  }

  lemma TurnOutcome(t: Table, tx: Tx, target: nat, tick: UnstickTick, c: Config)
    ensures var step := UnstickRow(t, tx, target, tick, c);
      && step.ok == !UnstickThrows(tx, target, c)
      && (if Resends(tx, target, tick, c) && HashFree(t, tick.hash.value, tick.hash.value)
          then var h := tick.hash.value;
               step.state.Keys == t.Keys + {h} && Replaces(step.state[h], tx, h, target, tick.now, c)
               && forall k :: k in t && k != h ==> step.state[k] == t[k]
          else step.state == t)
  {
    if Resends(tx, target, tick, c) {
      var bid := ReplacementFor(tx, tick.hash.value, target, tick.now, c);
      assert HashTaken(t, bid) <==> !HashFree(t, tick.hash.value, tick.hash.value);
    }
  }

  /** One turn more. */
  lemma {:induction false} LoopStep(t: Table, rows: seq<Tx>, i: nat, target: nat, ticks: nat -> UnstickTick, c: Config,
                                    n: nat)
    requires i <= n < |rows|
    ensures UnstickRows(t, rows[..n + 1], i, target, ticks, c)
         == var before := UnstickRows(t, rows[..n], i, target, ticks, c);
            if before.ok then UnstickRow(before.state, rows[n], target, ticks(n), c) else before
    decreases n - i
  {
    var step := UnstickRow(t, rows[i], target, ticks(i), c);
    assert rows[..n + 1][i] == rows[i];
    if i == n {
    } else {
      assert rows[..n][i] == rows[i];
      if step.ok {
        LoopStep(step.state, rows, i + 1, target, ticks, c, n);
      }
    }
  }

  /** Turn `m` comes, sends its transfer, and gets a hash no row of the table it finds holds. */
  ghost predicate Sends(t: Table, rows: seq<Tx>, target: nat, ticks: nat -> UnstickTick, c: Config, m: nat)
    requires m < |rows|
  {
    && Reached(rows, target, c, m) && Resends(rows[m], target, ticks(m), c)
    && HashFree(UnstickRows(t, rows[..m], 0, target, ticks, c).state, ticks(m).hash.value, ticks(m).hash.value)
  }

  lemma {:induction false} LoopReturns(t: Table, rows: seq<Tx>, target: nat, ticks: nat -> UnstickTick, c: Config,
                                       n: nat)
    requires n <= |rows|
    ensures UnstickRows(t, rows[..n], 0, target, ticks, c).ok == Reached(rows, target, c, n)
  {
    if n == 0 {
    } else {
      LoopReturns(t, rows, target, ticks, c, n - 1);
      LoopStep(t, rows, 0, target, ticks, c, n - 1);
      TurnOutcome(UnstickRows(t, rows[..n - 1], 0, target, ticks, c).state, rows[n - 1], target, ticks(n - 1), c);
    }
  }

  /** The first `n` turns touch no row but those whose hash they got for a transfer. */
  lemma {:induction false} OthersStay(t: Table, rows: seq<Tx>, target: nat, ticks: nat -> UnstickTick, c: Config,
                                      n: nat, k: Hash)
    requires n <= |rows| && forall m :: 0 <= m < n && Sends(t, rows, target, ticks, c, m) ==> ticks(m).hash != Some(k)
    ensures var out := UnstickRows(t, rows[..n], 0, target, ticks, c);
      && out.ok == Reached(rows, target, c, n)
      && (k in out.state <==> k in t) && (k in t ==> out.state[k] == t[k])
  {
    if n == 0 {
    } else {
      OthersStay(t, rows, target, ticks, c, n - 1, k);
      LoopStep(t, rows, 0, target, ticks, c, n - 1);
      TurnOutcome(UnstickRows(t, rows[..n - 1], 0, target, ticks, c).state, rows[n - 1], target, ticks(n - 1), c);
    }
  }

  lemma {:induction false} StandsAfter(t: Table, rows: seq<Tx>, target: nat, ticks: nat -> UnstickTick, c: Config,
                                       n: nat, j: nat)
    requires j < n <= |rows| && Sends(t, rows, target, ticks, c, j)
    requires forall m :: j < m < n && Sends(t, rows, target, ticks, c, m) ==> ticks(m).hash != ticks(j).hash
    ensures var h, after := ticks(j).hash.value, UnstickRows(t, rows[..n], 0, target, ticks, c).state;
      h in after && Replaces(after[h], rows[j], h, target, ticks(j).now, c)
  {
    var before := UnstickRows(t, rows[..n - 1], 0, target, ticks, c);
    LoopStep(t, rows, 0, target, ticks, c, n - 1);
    LoopReturns(t, rows, target, ticks, c, n - 1);
    if n > j + 1 {
      StandsAfter(t, rows, target, ticks, c, n - 1, j);
    }
    TurnOutcome(before.state, rows[n - 1], target, ticks(n - 1), c);
  }

  /**
   * After the loop, whether it ran through or not: if the turn of a fetched row came, its sender is
   * a configured signer, it has a nonce and its price is missing or below the one asked, and the
   * node took the transfer under a hash that was free then and that no later transfer got, then
   * under that hash stands a submitted empty transfer of the same sender and nonce at that price.
   */
  lemma ReplacementStands(t: Table, rows: seq<Tx>, target: nat, ticks: nat -> UnstickTick, c: Config, j: nat)
    requires j < |rows| && Sends(t, rows, target, ticks, c, j)
    requires forall m :: j < m < |rows| && Sends(t, rows, target, ticks, c, m) ==> ticks(m).hash != ticks(j).hash
    ensures var h, after := ticks(j).hash.value, UnstickRows(t, rows, 0, target, ticks, c).state;
      h in after && Replaces(after[h], rows[j], h, target, ticks(j).now, c)
  {
    StandsAfter(t, rows, target, ticks, c, |rows|, j);
    assert rows[..|rows|] == rows;
  }

  /** And nothing else is written: a row whose key no such transfer got is as before, or as absent. */
  lemma NothingElseWritten(t: Table, rows: seq<Tx>, target: nat, ticks: nat -> UnstickTick, c: Config, k: Hash)
    requires forall m :: 0 <= m < |rows| && Sends(t, rows, target, ticks, c, m) ==> ticks(m).hash != Some(k)
    ensures var out := UnstickRows(t, rows, 0, target, ticks, c);
      && (out.ok <==> forall n :: 0 <= n < |rows| ==> !UnstickThrows(rows[n], target, c))
      && (k in out.state <==> k in t) && (k in t ==> out.state[k] == t[k])
  {
    OthersStay(t, rows, target, ticks, c, |rows|, k);
    assert rows[..|rows|] == rows;
  }
}
