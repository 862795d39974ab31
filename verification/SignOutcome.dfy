/** The row every fetched copy ends up as after the sign loop, from what the outside answered. */
module SignOutcome {
  import opened Wrappers
  import opened Transactions
  import opened Phases
  import opened Signers
  import opened WatcherInvariants

  /** The rate limiter failed, or refused a row without an API key to warn about. */
  predicate SignThrows(tx: Tx, tick: SignTick) {
    tick.limiter == LimiterThrew || (tick.limiter == Limited && tx.apiKey.None?)
  }

  /** No turn before turn `m` throws. */
  ghost predicate Reached(rows: seq<Tx>, ticks: nat -> SignTick, m: nat)
    requires m <= |rows|
  {
    forall n :: 0 <= n < m ==> !SignThrows(rows[n], ticks(n))
  }

  /** The limiter refused the row, or it waited past the time it was expected. */
  predicate GivenUp(tx: Tx, tick: SignTick) {
    || (tick.limiter == Limited && tx.apiKey.Some?)
    || (tick.limiter == Allowed && tick.now > tx.expectedAt)
  }

  /** Everything a signature takes is there, and the node took the signed transaction. */
  predicate Broadcastable(tx: Tx, tick: SignTick, c: Config) {
    && tick.limiter == Allowed && tick.now <= tx.expectedAt
    && tx.to.Some? && tx.value.Some? && tx.gasPrice.Some? && tx.data.Some?
    && c.signers != [] && tick.broadcast.Sent?
  }

  /** How many rows of the account wait to be mined. */
  function Waiting(t: Table, a: Address): nat {
    |set k | k in t && t[k].from == Some(a) && t[k].status in {Submitted, Mempool, Stuck}|
  }

  /** A configured signer with the least waiting rows, and among those one of the richest. */
  ghost predicate LeastLoaded(t: Table, a: Address, signers: seq<Address>, balances: map<Address, real>) {
    && a in signers
    && forall b :: b in signers ==>
      || Waiting(t, a) < Waiting(t, b)
      || (&& Waiting(t, a) == Waiting(t, b)
          && (if a in balances then balances[a] else 0.0) >= (if b in balances then balances[b] else 0.0))
  }

  lemma WaitingIsCount(t: Table, a: Address)
    ensures Waiting(t, a) == PendingCount(t, a)
  {
    assert PendingKeys(t, a) == set k | k in t && t[k].from == Some(a) && t[k].status in {Submitted, Mempool, Stuck};
  }

  /** The signer chosen is least loaded, and there is one whenever one is configured. */
  lemma NextSignerIsLeastLoaded(t: Table, signers: seq<Address>, balances: map<Address, real>)
    ensures NextSigner(t, signers, balances).None? <==> signers == []
    ensures signers != [] ==> LeastLoaded(t, NextSigner(t, signers, balances).value, signers, balances)
  {
    NextSignerLeastLoaded(t, signers, balances);
    forall b | b in signers ensures Waiting(t, b) == PendingCount(t, b) {
      WaitingIsCount(t, b);
    }
  }

  /** The row signed: the broadcast's hash, nonce and gas, and nothing else changed but the sender. */
  predicate SignedAs(tx: Tx, b: Broadcast, row: Tx) {
    && b.Sent? && row.status == Submitted
    && row.txHash == Some(b.hash) && row.nonce == Some(b.nonce) && row.gas == Some(b.gas) && row.from.Some?
    && row == tx.(status := row.status, txHash := row.txHash, nonce := row.nonce, gas := row.gas, from := row.from)
  }

  lemma SignatureOutcome(t: Table, tx: Tx, tick: SignTick, c: Config, balances: map<Address, real>)
    requires tx.refHash in t && t[tx.refHash] == tx && tick.limiter == Allowed && tick.now <= tx.expectedAt
    ensures var t' := SignAndBroadcast(t, tx, tick.broadcast, c, balances);
      if Broadcastable(tx, tick, c) && HashFree(t, tx.refHash, tick.broadcast.hash)
      then tx.refHash in t' && SignedAs(tx, tick.broadcast, t'[tx.refHash])
           && LeastLoaded(t, t'[tx.refHash].from.value, c.signers, balances)
      else t' == t
  {
    NextSignerIsLeastLoaded(t, c.signers, balances);
    if Broadcastable(tx, tick, c) {
      var signed := tx.(status := Submitted, txHash := Some(tick.broadcast.hash), nonce := Some(tick.broadcast.nonce),
                        from := NextSigner(t, c.signers, balances), gas := Some(tick.broadcast.gas));
      assert HashTaken(t, signed) <==> !HashFree(t, tx.refHash, tick.broadcast.hash);
    }
  }

  /** What a turn makes of its own row in the table it finds. */
  ghost predicate Turned(t: Table, tx: Tx, tick: SignTick, c: Config, balances: map<Address, real>, row: Tx) {
    if GivenUp(tx, tick) then row == tx.(status := Cancelled)
    else if Broadcastable(tx, tick, c) && HashFree(t, tx.refHash, tick.broadcast.hash) then
      SignedAs(tx, tick.broadcast, row) && LeastLoaded(t, row.from.value, c.signers, balances)
    else row == tx
  }

  lemma TurnOutcome(t: Table, tx: Tx, tick: SignTick, c: Config, balances: map<Address, real>)
    requires tx.refHash in t && t[tx.refHash] == tx
    ensures tx.refHash in SignRow(t, tx, tick, c, balances).state
    ensures Turned(t, tx, tick, c, balances, SignRow(t, tx, tick, c, balances).state[tx.refHash])
  {
    if tick.limiter == Allowed && tick.now <= tx.expectedAt {
      SignatureOutcome(t, tx, tick, c, balances);
    }
  }

  /** One turn more. */
  lemma {:induction false} LoopStep(t: Table, rows: seq<Tx>, i: nat, ticks: nat -> SignTick, c: Config,
                                    balances: map<Address, real>, n: nat)
    requires i <= n < |rows|
    ensures SignRows(t, rows[..n + 1], i, ticks, c, balances)
         == var before := SignRows(t, rows[..n], i, ticks, c, balances);
            if before.ok then SignRow(before.state, rows[n], ticks(n), c, balances) else before
    decreases n - i
  {
    var step := SignRow(t, rows[i], ticks(i), c, balances);
    assert rows[..n + 1][i] == rows[i];
    if i == n {
    } else {
      assert rows[..n][i] == rows[i];
      if step.ok {
        LoopStep(step.state, rows, i + 1, ticks, c, balances, n);
      }
    }
  }

  lemma {:induction false} LoopReturns(t: Table, rows: seq<Tx>, ticks: nat -> SignTick, c: Config,
                                       balances: map<Address, real>, n: nat)
    requires n <= |rows|
    ensures SignRows(t, rows[..n], 0, ticks, c, balances).ok == Reached(rows, ticks, n)
  {
    if n == 0 {
    } else {
      LoopReturns(t, rows, ticks, c, balances, n - 1);
      LoopStep(t, rows, 0, ticks, c, balances, n - 1);
    }
  }

  /** Writing a row touches no other. */
  lemma TurnElsewhere(t: Table, tx: Tx, tick: SignTick, c: Config, balances: map<Address, real>, k: Hash)
    requires tx.refHash != k
    ensures k in SignRow(t, tx, tick, c, balances).state <==> k in t
    ensures k in t ==> SignRow(t, tx, tick, c, balances).state[k] == t[k]
  {
  }

  /** The first `n` turns touch no row but those they hold a copy of. */
  lemma {:induction false} OthersStay(t: Table, rows: seq<Tx>, ticks: nat -> SignTick, c: Config,
                                      balances: map<Address, real>, n: nat, k: Hash)
    requires n <= |rows| && forall j :: 0 <= j < n ==> rows[j].refHash != k
    ensures k in SignRows(t, rows[..n], 0, ticks, c, balances).state <==> k in t
    ensures k in t ==> SignRows(t, rows[..n], 0, ticks, c, balances).state[k] == t[k]
  {
    if n == 0 {
    } else {
      OthersStay(t, rows, ticks, c, balances, n - 1, k);
      LoopStep(t, rows, 0, ticks, c, balances, n - 1);
      TurnElsewhere(SignRows(t, rows[..n - 1], 0, ticks, c, balances).state, rows[n - 1], ticks(n - 1), c, balances, k);
    }
  }

  /** What the loop up to turn `n` leaves of the copy of turn `j`. */
  ghost predicate LeftBy(t: Table, rows: seq<Tx>, ticks: nat -> SignTick, c: Config, balances: map<Address, real>,
                         n: nat, j: nat)
    requires j < n <= |rows|
  {
    var before, after := SignRows(t, rows[..j], 0, ticks, c, balances).state,
                         SignRows(t, rows[..n], 0, ticks, c, balances).state;
    && rows[j].refHash in after
    && (if Reached(rows, ticks, j) then Turned(before, rows[j], ticks(j), c, balances, after[rows[j].refHash])
        else after[rows[j].refHash] == rows[j])
  }

  lemma OwnTurn(t: Table, rows: seq<Tx>, ticks: nat -> SignTick, c: Config, balances: map<Address, real>, j: nat)
    requires j < |rows| && Current(t, rows, 0, IsUnsubmitted)
    ensures LeftBy(t, rows, ticks, c, balances, j + 1, j)
  {
    OthersStay(t, rows, ticks, c, balances, j, rows[j].refHash);
    LoopReturns(t, rows, ticks, c, balances, j);
    LoopStep(t, rows, 0, ticks, c, balances, j);
    if Reached(rows, ticks, j) {
      TurnOutcome(SignRows(t, rows[..j], 0, ticks, c, balances).state, rows[j], ticks(j), c, balances);
    }
  }

  lemma CopyNext(t: Table, rows: seq<Tx>, ticks: nat -> SignTick, c: Config, balances: map<Address, real>, n: nat,
                 j: nat)
    requires j < n < |rows| && rows[n].refHash != rows[j].refHash && LeftBy(t, rows, ticks, c, balances, n, j)
    ensures LeftBy(t, rows, ticks, c, balances, n + 1, j)
  {
    LoopStep(t, rows, 0, ticks, c, balances, n);
    TurnElsewhere(SignRows(t, rows[..n], 0, ticks, c, balances).state, rows[n], ticks(n), c, balances,
                  rows[j].refHash);
  }

  /** A row stays as its own turn left it. */
  lemma {:induction false} CopyAfter(t: Table, rows: seq<Tx>, ticks: nat -> SignTick, c: Config,
                                     balances: map<Address, real>, n: nat, j: nat)
    requires j < n <= |rows| && Current(t, rows, 0, IsUnsubmitted)
    ensures LeftBy(t, rows, ticks, c, balances, n, j)
  {
    if n == j + 1 {
      OwnTurn(t, rows, ticks, c, balances, j);
    } else {
      CopyAfter(t, rows, ticks, c, balances, n - 1, j);
      CopyNext(t, rows, ticks, c, balances, n - 1, j);
    }
  }

  /**
   * After the loop, whether it ran through or not: a fetched row is cancelled exactly if its turn
   * came and it was refused or late, and submitted exactly if its turn came and everything was there
   * and the hash was free. A submitted row carries the broadcast of its turn and was given to a least
   * loaded signer of that turn. Any other row is as before.
   */
  lemma SignedExactly(t: Table, rows: seq<Tx>, ticks: nat -> SignTick, c: Config, balances: map<Address, real>, j: nat)
    requires j < |rows| && Current(t, rows, 0, IsUnsubmitted)
    ensures rows[j].refHash in SignRows(t, rows, 0, ticks, c, balances).state
    ensures var tx, tick, row := rows[j], ticks(j), SignRows(t, rows, 0, ticks, c, balances).state[rows[j].refHash];
      var before := SignRows(t, rows[..j], 0, ticks, c, balances).state;
      && (row.status == Cancelled <==> Reached(rows, ticks, j) && GivenUp(tx, tick))
      && (row.status == Submitted <==>
          && Reached(rows, ticks, j) && Broadcastable(tx, tick, c)
          && HashFree(before, tx.refHash, tick.broadcast.hash))
      && (row.status == Submitted ==>
          SignedAs(tx, tick.broadcast, row) && LeastLoaded(before, row.from.value, c.signers, balances))
      && (row.status == Cancelled ==> row == tx.(status := Cancelled))
      && (row.status !in {Submitted, Cancelled} ==> row == tx)
  {
    CopyAfter(t, rows, ticks, c, balances, |rows|, j);
    assert rows[..|rows|] == rows;
  }
}
