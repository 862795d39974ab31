/** The service object: its methods walk fetched rows and write the table one row at a time. */
module Watcher {
  import opened Wrappers
  import opened Transactions
  import opened Phases
  import opened Signers
  import opened WatcherInvariants
  import opened WatcherRuns

  /** Everything the world outside answers during one pass, in the order it is asked. */
  datatype Answers = Answers(
    sign: nat -> SignTick, sync: nat -> SyncTick, target: Option<nat>, unstick: nat -> UnstickTick,
    head: Option<nat>, confirm: nat -> ConfirmTick)

  const WEI_PER_ETHER := 1_000_000_000_000_000_000.0

  class TransactionWatcherSignerService {
    const config: Config
    var table: Table
    var balances: map<Address, real>

    ghost predicate KeysAgree()
      reads this`table
    {
      forall k :: k in table ==> table[k].refHash == k
    }

    constructor (config: Config, table: Table)
      requires WellFormed(table)
      ensures this.config == config && this.table == table && balances == map[] && WellFormed(this.table)
    {
      this.config := config;
      this.table := table;
      this.balances := map[];
    }

    /** Balances come in wei and are kept in ether. */
    method UpdateSignerBalance(signer: Address, balance: nat)
      modifies this`balances
      ensures balances == old(balances)[signer := balance as real / WEI_PER_ETHER]
    {
      balances := balances[signer := balance as real / WEI_PER_ETHER];
    }

    // ---- phase 1 -------------------------------------------------------------------------

    method CancelOrSign(tx: Tx, tick: SignTick) returns (ok: bool)
      modifies this`table
      ensures Outcome(table, ok) == SignRow(old(table), tx, tick, config, balances)
    {
      if tick.limiter == LimiterThrew {
        return false;
      }
      if tick.limiter == Limited {
        if tx.apiKey.None? {
          return false;
        }
        table := Put(table, tx.(status := Cancelled));
        return true;
      }
      if tick.now > tx.expectedAt {
        table := Put(table, tx.(status := Cancelled));
        return true;
      }
      var signer := NextSigner(table, config.signers, balances);
      if signer.Some? && tx.to.Some? && tx.value.Some? && tx.gasPrice.Some? && tx.data.Some? && tick.broadcast.Sent? {
        var signed := tx.(status := Submitted, txHash := Some(tick.broadcast.hash), nonce := Some(tick.broadcast.nonce),
                          from := signer, gas := Some(tick.broadcast.gas));
        if !HashTaken(table, signed) {
          table := Put(table, signed);
        }
      }
      return true;
    }

    method CancelOrSignAndBroadcastTransactions(ticks: nat -> SignTick) returns (ok: bool, ghost rows: seq<Tx>)
      requires KeysAgree()
      modifies this`table
      ensures Listing(rows, old(table), IsUnsubmitted)
      ensures Outcome(table, ok) == SignRows(old(table), rows, 0, ticks, config, balances)
    {
      var unsigned := Find(table, IsUnsubmitted);
      rows := unsigned;
      ok := true;
      var i := 0;
      while i < |unsigned|
        invariant 0 <= i <= |unsigned| && ok
        invariant SignRows(old(table), unsigned, 0, ticks, config, balances)
               == SignRows(table, unsigned, i, ticks, config, balances)
      {
        ok := CancelOrSign(unsigned[i], ticks(i));
        if !ok {
          return;
        }
        i := i + 1;
      }
    }

    // ---- phase 2 -------------------------------------------------------------------------

    /** Only rows of the winner's account and nonce that went out under another hash are aborted. */
    method AbortTransactionsWithTheSameNonce(winner: Tx)
      requires KeysAgree()
      modifies this`table
      ensures table == AbortRivals(old(table), winner)
      ensures table.Keys == old(table).Keys
      ensures forall k :: k in old(table) ==>
        var row := old(table)[k];
        if && row.from.Some? && row.from == winner.from && row.nonce.Some? && row.nonce == winner.nonce
           && row.txHash.Some? && row.txHash != winner.txHash
        then table[k] == row.(status := Aborted) else table[k] == row
    {
      var rivals := Find(table, tx => Rival(tx, winner));
      ghost var done: set<Hash> := {};
      var i := 0;
      while i < |rivals|
        invariant 0 <= i <= |rivals|
        invariant forall k :: k in done <==> exists n :: 0 <= n < i && rivals[n].refHash == k
        invariant table == WithAborted(old(table), done)
      {
        assert rivals[i] == old(table)[rivals[i].refHash];
        table := Put(table, rivals[i].(status := Aborted));
        done := done + {rivals[i].refHash};
        i := i + 1;
      }
      RivalsFound(old(table), rivals, winner, done);
    }

    method FindTransactionStatusAndUpdate(tx: Tx, tick: SyncTick) returns (ok: bool)
      requires KeysAgree()
      modifies this`table
      ensures Outcome(table, ok) == SyncRow(old(table), tx, tick)
      ensures KeysAgree()
    {
      if tick.blockDate.None? {
        return false;
      }
      var expired := tx.expectedAt <= tick.blockDate.value;
      if tx.txHash.None? {
        return true;
      }
      match tick.reply {
        case Found(hasHash, block) =>
          if hasHash {
            if block.Some? {
              var mined := tx.(status := Included, blockNumber := block);
              table := Put(table, mined);
              AbortTransactionsWithTheSameNonce(mined);
            } else if !expired && tx.status != Mempool {
              table := Put(table, tx.(status := Mempool));
            } else if expired {
              table := Put(table, tx.(status := Stuck));
            }
          }
        case NotFoundTypeError =>
          if expired {
            table := Put(table, tx.(status := Dropped));
          }
        case RpcError =>
          return false;
        case _ =>
      }
      return true;
    }

    method SyncBroadcastedTransactionStatus(ticks: nat -> SyncTick) returns (ok: bool, ghost rows: seq<Tx>)
      requires KeysAgree()
      modifies this`table
      ensures Listing(rows, old(table), Pending)
      ensures Outcome(table, ok) == SyncRows(old(table), rows, 0, ticks)
    {
      var toCheck := Find(table, Pending);
      rows := toCheck;
      ok := true;
      var i := 0;
      while i < |toCheck|
        invariant 0 <= i <= |toCheck| && ok && KeysAgree()
        invariant SyncRows(old(table), toCheck, 0, ticks) == SyncRows(table, toCheck, i, ticks)
      {
        ok := FindTransactionStatusAndUpdate(toCheck[i], ticks(i));
        if !ok {
          return;
        }
        i := i + 1;
      }
    }

    // ---- phase 3 -------------------------------------------------------------------------

    method CheckForStuckTransactions(target: Option<nat>, ticks: nat -> UnstickTick)
      returns (ok: bool, ghost rows: seq<Tx>)
      requires KeysAgree()
      modifies this`table
      ensures Listing(rows, old(table), IsStuck)
      ensures Outcome(table, ok) == UnstickPhase(old(table), rows, target, ticks, config)
    {
      var stuck := Find(table, IsStuck);
      rows := stuck;
      ok := true;
      if |stuck| == 0 {
        return;
      }
      if target.None? {
        ok := false;
        return;
      }
      var i := 0;
      while i < |stuck|
        invariant 0 <= i <= |stuck|
        invariant UnstickRows(old(table), stuck, 0, target.value, ticks, config)
               == UnstickRows(table, stuck, i, target.value, ticks, config)
      {
        var tx, tick := stuck[i], ticks(i);
        if tx.from.Some? && (tx.gasPrice.None? || tx.gasPrice.value < target.value) {
          if tx.from.value !in config.signers {
            ok := false;
            return;
          }
          if tx.nonce.Some? && tick.hash.Some? {
            var bid := ReplacementFor(tx, tick.hash.value, target.value, tick.now, config);
            if !HashTaken(table, bid) {
              table := Put(table, bid);
            }
          }
        }
        i := i + 1;
      }
    }

    // ---- phase 4 -------------------------------------------------------------------------

    method CheckIncluded(tx: Tx, head: nat, tick: ConfirmTick) returns (ok: bool)
      modifies this`table
      ensures Outcome(table, ok) == ConfirmRow(old(table), tx, head, tick, config)
    {
      if tx.txHash.None? || tx.blockNumber.None? {
        return true;
      }
      match tick.reply {
        case NoReply =>
          table := Put(table, tx.(status := Submitted));
        case Found(_, block) =>
          if block.None? {
            table := Put(table, tx.(status := Mempool, blockNumber := None));
          } else if tx.blockNumber.value + config.blocksUntilConfirmed < head {
            if tick.receipt.None? {
              return false;
            }
            var r := tick.receipt.value;
            table := Put(table, tx.(status := Confirmed, gasUsed := Some(r.gasUsed),
                                    txStatus := if r.status.None? then tx.txStatus else r.status));
          }
        case _ =>
          return false;
      }
      return true;
    }

    method CheckForConfirmedTransactions(head: Option<nat>, ticks: nat -> ConfirmTick)
      returns (ok: bool, ghost rows: seq<Tx>)
      requires KeysAgree()
      modifies this`table
      ensures head.Some? ==> Listing(rows, old(table), IsIncluded)
      ensures head.Some? ==> Outcome(table, ok) == ConfirmRows(old(table), rows, 0, head.value, ticks, config)
      ensures head.None? ==> table == old(table) && !ok
    {
      if head.None? {
        return false, [];
      }
      var included := Find(table, IsIncluded);
      rows := included;
      ok := true;
      var i := 0;
      while i < |included|
        invariant 0 <= i <= |included| && ok
        invariant ConfirmRows(old(table), included, 0, head.value, ticks, config)
               == ConfirmRows(table, included, i, head.value, ticks, config)
      {
        ok := CheckIncluded(included[i], head.value, ticks(i));
        if !ok {
          return;
        }
        i := i + 1;
      }
    }

    // ---- one pass ------------------------------------------------------------------------

    /** The pass, with exactly the answers given, is one the run theorems speak about. */
    method SyncTransactionStatus(answers: Answers) returns (ghost p: PassInput)
      requires WellFormed(table)
      modifies this`table
      ensures p.sign == answers.sign && p.sync == answers.sync && p.target == answers.target
      ensures p.unstick == answers.unstick && p.head == answers.head && p.confirm == answers.confirm
      ensures p.balances == balances
      ensures Fetched(old(table), p, config)
      ensures table == Pass(old(table), p, config)
      ensures WellFormed(table)
    {
      ghost var t := table;
      ghost var stuck, included := [], [];
      var ok, unsubmitted := CancelOrSignAndBroadcastTransactions(answers.sign);
      ghost var t1 := table;
      assert WellFormed(t1) by { SignRowsKeep(t, unsubmitted, 0, answers.sign, config, balances); }
      ghost var pending;
      ok, pending := SyncBroadcastedTransactionStatus(answers.sync);
      ghost var synced := Outcome(table, ok);
      assert WellFormed(table) by { SyncKeepsListed(t1, pending, answers.sync); }
      ghost var unstuck := synced;
      if ok {
        stuck, included, unstuck := UnstickAndConfirm(answers);
      }
      p := PassInput(balances, unsubmitted, answers.sign, pending, answers.sync, stuck, answers.target, answers.unstick,
                     answers.head, included, answers.confirm);
      PassAssembled(t, p, config, t1, synced, unstuck, table);
    }

    method UnstickAndConfirm(answers: Answers)
      returns (ghost stuck: seq<Tx>, ghost included: seq<Tx>, ghost unstuck: Outcome<Table>)
      requires WellFormed(table)
      modifies this`table
      ensures Listing(stuck, old(table), IsStuck)
      ensures unstuck == UnstickPhase(old(table), stuck, answers.target, answers.unstick, config)
      ensures if unstuck.ok && answers.head.Some?
              then Listing(included, unstuck.state, IsIncluded)
                   && table == ConfirmRows(unstuck.state, included, 0, answers.head.value, answers.confirm,
                                           config).state
              else table == unstuck.state
    {
      ghost var t := table;
      var ok;
      included := [];
      ok, stuck := CheckForStuckTransactions(answers.target, answers.unstick);
      unstuck := Outcome(table, ok);
      UnstickKeepsListed(t, stuck, answers.target, answers.unstick, config);
      if ok {
        ok, included := CheckForConfirmedTransactions(answers.head, answers.confirm);
      }
    }
  }

  lemma PhasesAssembled(t: Table, p: PassInput, c: Config, t1: Table, synced: Outcome<Table>, unstuck: Outcome<Table>,
                        last: Table)
    requires Listing(p.unsubmitted, t, IsUnsubmitted)
        && t1 == SignRows(t, p.unsubmitted, 0, p.sign, c, p.balances).state
    requires Listing(p.pending, t1, Pending) && synced == SyncRows(t1, p.pending, 0, p.sync)
    requires if synced.ok
             then Listing(p.stuck, synced.state, IsStuck)
                  && unstuck == UnstickPhase(synced.state, p.stuck, p.target, p.unstick, c)
             else unstuck == synced
    requires if unstuck.ok && p.head.Some?
             then Listing(p.included, unstuck.state, IsIncluded)
                  && last == ConfirmRows(unstuck.state, p.included, 0, p.head.value, p.confirm, c).state
             else last == unstuck.state
    ensures Fetched(t, p, c) && last == Pass(t, p, c)
  {
    assert AfterSigning(t, p, c) == t1 && AfterSync(t, p, c) == synced && AfterUnstick(t, p, c) == unstuck;
  }

  /** Phases run one after the other make up a pass. */
  lemma PassAssembled(t: Table, p: PassInput, c: Config, t1: Table, synced: Outcome<Table>, unstuck: Outcome<Table>,
                      last: Table)
    requires WellFormed(t)
    requires Listing(p.unsubmitted, t, IsUnsubmitted)
        && t1 == SignRows(t, p.unsubmitted, 0, p.sign, c, p.balances).state
    requires Listing(p.pending, t1, Pending) && synced == SyncRows(t1, p.pending, 0, p.sync)
    requires if synced.ok
             then Listing(p.stuck, synced.state, IsStuck)
                  && unstuck == UnstickPhase(synced.state, p.stuck, p.target, p.unstick, c)
             else unstuck == synced
    requires if unstuck.ok && p.head.Some?
             then Listing(p.included, unstuck.state, IsIncluded)
                  && last == ConfirmRows(unstuck.state, p.included, 0, p.head.value, p.confirm, c).state
             else last == unstuck.state
    ensures Fetched(t, p, c) && last == Pass(t, p, c) && WellFormed(last)
  {
    PhasesAssembled(t, p, c, t1, synced, unstuck, last);
    PassMoves(t, p, c);
  }

  lemma UnstickKeepsListed(t: Table, rows: seq<Tx>, target: Option<nat>, ticks: nat -> UnstickTick, c: Config)
    requires WellFormed(t)
    ensures WellFormed(UnstickPhase(t, rows, target, ticks, c).state)
  {
    if target.Some? {
      UnstickRowsKeep(t, rows, 0, target.value, ticks, c);
    }
  }

  ghost function WithAborted(t: Table, ks: set<Hash>): Table {
    map k | k in t :: if k in ks then t[k].(status := Aborted) else t[k]
  }

  lemma RivalsFound(t: Table, rivals: seq<Tx>, winner: Tx, ks: set<Hash>)
    requires Listing(rivals, t, tx => Rival(tx, winner)) && forall k :: k in t ==> t[k].refHash == k
    requires forall k :: k in ks <==> exists n :: 0 <= n < |rivals| && rivals[n].refHash == k
    ensures WithAborted(t, ks) == AbortRivals(t, winner)
  {
    var keep := (tx: Tx) => Rival(tx, winner);
    forall k | k in t ensures k in ks <==> Rival(t[k], winner) {
      if k in ks {
        var n :| 0 <= n < |rivals| && rivals[n].refHash == k;
        assert keep(rivals[n]);
      }
      if Rival(t[k], winner) {
        assert keep(t[k]) && t[k] in rivals;
      }
    }
  }

  lemma SyncKeepsListed(t: Table, rows: seq<Tx>, ticks: nat -> SyncTick)
    requires WellFormed(t) && Listing(rows, t, Pending)
    ensures WellFormed(SyncRows(t, rows, 0, ticks).state)
  {
    assert StaleCopies(t, rows, 0);
    SyncRowsKeep(t, rows, 0, ticks);
  }
}
