/** Signing hands work to the least loaded signer, so the loads stay close and even out. */
module LoadBalance {
  import opened Wrappers
  import opened Transactions
  import opened Phases
  import opened Signers
  import opened WatcherInvariants

  /** No signer has more than `d` pending transactions above another. */
  predicate SpreadAtMost(t: Table, signers: seq<Address>, d: nat) {
    forall a, b :: a in signers && b in signers ==> PendingCount(t, a) <= PendingCount(t, b) + d
  }

  /** The step broadcast a transaction from `s` and changed no other load. */
  ghost predicate OneMore(t: Table, t': Table, s: Address) {
    && PendingCount(t', s) == PendingCount(t, s) + 1
    && forall a :: a != s ==> PendingCount(t', a) == PendingCount(t, a)
  }

  ghost predicate SameLoads(t: Table, t': Table) {
    forall a :: PendingCount(t', a) == PendingCount(t, a)
  }

  predicate Signed(t: Table, t': Table, tx: Tx) {
    tx.refHash in t' && t'[tx.refHash].status == Submitted
  }

  /** Rewriting a row that was not pending adds to its new sender's load if it now is. */
  lemma PutLoads(t: Table, tx: Tx)
    requires tx.refHash in t && !Pending(t[tx.refHash])
    ensures Pending(tx) && tx.from.Some? ==> OneMore(t, Put(t, tx), tx.from.value)
    ensures !Pending(tx) ==> SameLoads(t, Put(t, tx))
  {
    var k, t' := tx.refHash, Put(t, tx);
    forall a ensures PendingCount(t', a) == PendingCount(t, a) + (if Pending(tx) && tx.from == Some(a) then 1 else 0) {
      assert k !in PendingKeys(t, a);
      assert PendingKeys(t', a) == PendingKeys(t, a) + (if Pending(tx) && tx.from == Some(a) then {k} else {});
    }
  }

  ghost predicate LoadStep(t: Table, t': Table, tx: Tx, c: Config, balances: map<Address, real>) {
    if Signed(t, t', tx)
    then NextSigner(t, c.signers, balances).Some? && OneMore(t, t', NextSigner(t, c.signers, balances).value)
    else SameLoads(t, t')
  }

  lemma SignRowLoads(t: Table, tx: Tx, tick: SignTick, c: Config, balances: map<Address, real>)
    requires tx.refHash in t && t[tx.refHash] == tx && IsUnsubmitted(tx)
    ensures LoadStep(t, SignRow(t, tx, tick, c, balances).state, tx, c, balances)
  {
    var t' := SignRow(t, tx, tick, c, balances).state;
    if t' != t {
      var b := t'[tx.refHash];
      assert t' == Put(t, b);
      PutLoads(t, b);
    }
  }

  /** Transactions the loop manages to broadcast. */
  function Broadcasts(t: Table, rows: seq<Tx>, i: nat, ticks: nat -> SignTick, c: Config,
                      balances: map<Address, real>): nat
    requires i <= |rows|
    decreases |rows| - i
  {
    if i == |rows| then 0
    else
      var step := SignRow(t, rows[i], ticks(i), c, balances);
      (if Signed(t, step.state, rows[i]) then 1 else 0)
      + (if step.ok then Broadcasts(step.state, rows, i + 1, ticks, c, balances) else 0)
  }

  lemma LeastLoadedKeepsSpread(t: Table, t': Table, signers: seq<Address>, balances: map<Address, real>, d: nat)
    requires NextSigner(t, signers, balances).Some? && OneMore(t, t', NextSigner(t, signers, balances).value)
    requires SpreadAtMost(t, signers, d) && d >= 1
    ensures SpreadAtMost(t', signers, d)
  {
    NextSignerLeastLoaded(t, signers, balances);
  }

  /** Through the sign loop the spread never exceeds the larger of the initial spread and one. */
  lemma {:induction false} SigningKeepsSpread(t: Table, rows: seq<Tx>, i: nat, ticks: nat -> SignTick, c: Config,
                                              balances: map<Address, real>, d: nat)
    requires i <= |rows| && WellFormed(t) && Current(t, rows, i, IsUnsubmitted)
    requires SpreadAtMost(t, c.signers, d) && d >= 1
    ensures SpreadAtMost(SignRows(t, rows, i, ticks, c, balances).state, c.signers, d)
    decreases |rows| - i
  {
    if i == |rows| {
    } else {
      SignRowKeeps(t, rows[i], ticks(i), c, balances);
      SignRowLoads(t, rows[i], ticks(i), c, balances);
      var step := SignRow(t, rows[i], ticks(i), c, balances);
      if Signed(t, step.state, rows[i]) {
        LeastLoadedKeepsSpread(t, step.state, c.signers, balances, d);
      } else {
        assert SpreadAtMost(step.state, c.signers, d);
      }
      if step.ok {
        SigningKeepsSpread(step.state, rows, i + 1, ticks, c, balances, d);
      }
    }
  }

  // ---- evening out -----------------------------------------------------------------------

  ghost predicate Bounded(t: Table, keys: seq<Address>, m: nat) {
    forall a :: a in keys ==> PendingCount(t, a) <= m
  }

  /** How many transactions it takes to lift every signer to load `m`. */
  function Gap(t: Table, keys: seq<Address>, m: nat): int {
    if keys == [] then 0 else Gap(t, keys[1..], m) + m - PendingCount(t, keys[0])
  }

  lemma {:induction false} GapZero(t: Table, keys: seq<Address>, m: nat)
    requires Bounded(t, keys, m)
    ensures Gap(t, keys, m) >= 0
    ensures Gap(t, keys, m) == 0 <==> forall a :: a in keys ==> PendingCount(t, a) == m
  {
    if keys == [] {
    } else {
      GapZero(t, keys[1..], m);
      assert keys == [keys[0]] + keys[1..];
    }
  }

  lemma {:induction false} GapSame(t: Table, t': Table, keys: seq<Address>, m: nat)
    requires forall a :: a in keys ==> PendingCount(t', a) == PendingCount(t, a)
    ensures Gap(t', keys, m) == Gap(t, keys, m)
  {
    if keys == [] {
    } else {
      GapSame(t, t', keys[1..], m);
    }
  }

  lemma {:induction false} GapShrinks(t: Table, t': Table, keys: seq<Address>, s: Address, m: nat)
    requires OneMore(t, t', s) && s in keys
    requires forall i, j :: 0 <= i < j < |keys| ==> keys[i] != keys[j]
    ensures Gap(t', keys, m) == Gap(t, keys, m) - 1
  {
    if keys[0] == s {
      GapSame(t, t', keys[1..], m);
    } else {
      assert keys == [keys[0]] + keys[1..];
      GapShrinks(t, t', keys[1..], s, m);
    }
  }

  /**
   * `m` bounds the loads of `t`, and the gap is what is missing below `m`. While fewer than the gap
   * are sent nobody passes `m` and each closes the gap by one; when exactly the gap is sent all
   * loads are `m`; from then on the spread is at most one.
   */
  ghost predicate Evened(t: Table, t': Table, sent: nat, signers: seq<Address>, m: nat) {
    var gap := Gap(t, Distinct(signers), m);
    && (sent <= gap ==> Bounded(t', signers, m) && Gap(t', Distinct(signers), m) == gap - sent)
    && (sent == gap ==> forall a :: a in signers ==> PendingCount(t', a) == m)
    && (sent >= gap ==> SpreadAtMost(t', signers, 1))
  }

  lemma NothingSent(t: Table, t': Table, signers: seq<Address>, m: nat)
    requires SameLoads(t, t') && Bounded(t, signers, m)
    ensures Bounded(t', signers, m) && Gap(t', Distinct(signers), m) == Gap(t, Distinct(signers), m)
    ensures Evened(t, t', 0, signers, m)
  {
    GapSame(t, t', Distinct(signers), m);
    GapZero(t, Distinct(signers), m);
  }

  lemma BroadcastClosesGap(t: Table, t': Table, signers: seq<Address>, balances: map<Address, real>, m: nat)
    requires Bounded(t, signers, m)
    requires NextSigner(t, signers, balances).Some? && OneMore(t, t', NextSigner(t, signers, balances).value)
    ensures Gap(t', Distinct(signers), m) == Gap(t, Distinct(signers), m) - 1
    ensures if Gap(t, Distinct(signers), m) == 0 then SpreadAtMost(t', signers, 1) else Bounded(t', signers, m)
  {
    var s := NextSigner(t, signers, balances).value;
    NextSignerLeastLoaded(t, signers, balances);
    GapShrinks(t, t', Distinct(signers), s, m);
    GapZero(t, Distinct(signers), m);
    if Gap(t, Distinct(signers), m) == 0 {
      LeastLoadedKeepsSpread(t, t', signers, balances, 1);
    }
  }

  ghost predicate GapStep(t: Table, t': Table, sent: bool, signers: seq<Address>, m: nat) {
    var keys := Distinct(signers);
    if !sent then Bounded(t', signers, m) && Gap(t', keys, m) == Gap(t, keys, m)
    else && Gap(t', keys, m) == Gap(t, keys, m) - 1
         && (if Gap(t, keys, m) == 0 then SpreadAtMost(t', signers, 1) else Bounded(t', signers, m))
  }

  lemma LoadStepGap(t: Table, t': Table, tx: Tx, c: Config, balances: map<Address, real>, m: nat)
    requires LoadStep(t, t', tx, c, balances) && Bounded(t, c.signers, m)
    ensures GapStep(t, t', Signed(t, t', tx), c.signers, m)
    ensures !Signed(t, t', tx) ==> Evened(t, t', 0, c.signers, m)
  {
    if Signed(t, t', tx) {
      BroadcastClosesGap(t, t', c.signers, balances, m);
    } else {
      NothingSent(t, t', c.signers, m);
    }
  }

  lemma SignThrows(t: Table, tx: Tx, tick: SignTick, c: Config, balances: map<Address, real>)
    requires tx.refHash in t && t[tx.refHash] == tx && IsUnsubmitted(tx) && !SignRow(t, tx, tick, c, balances).ok
    ensures !Signed(t, SignRow(t, tx, tick, c, balances).state, tx)
  {
  }

  lemma EvenedLater(t: Table, t1: Table, t2: Table, sent: nat, before: nat, signers: seq<Address>, m: nat)
    requires Gap(t, Distinct(signers), m) == Gap(t1, Distinct(signers), m) + before
    requires Evened(t1, t2, sent, signers, m)
    ensures Evened(t, t2, before + sent, signers, m)
  {
  }

  /** Signing evens the loads out, whatever fails along the way. */
  lemma {:induction false} SigningEvensOut(t: Table, rows: seq<Tx>, i: nat, ticks: nat -> SignTick, c: Config,
                                           balances: map<Address, real>, m: nat)
    requires i <= |rows| && WellFormed(t) && Current(t, rows, i, IsUnsubmitted)
    requires Bounded(t, c.signers, m)
    ensures Evened(t, SignRows(t, rows, i, ticks, c, balances).state,
                   Broadcasts(t, rows, i, ticks, c, balances), c.signers, m)
    decreases |rows| - i, 0
  {
    GapZero(t, Distinct(c.signers), m);
    if i == |rows| {
      NothingSent(t, t, c.signers, m);
    } else {
      SignRowKeeps(t, rows[i], ticks(i), c, balances);
      SignRowLoads(t, rows[i], ticks(i), c, balances);
      var step := SignRow(t, rows[i], ticks(i), c, balances);
      LoadStepGap(t, step.state, rows[i], c, balances, m);
      if step.ok {
        EvensOutRest(t, step.state, Signed(t, step.state, rows[i]), rows, i + 1, ticks, c, balances, m);
      } else {
        SignThrows(t, rows[i], ticks(i), c, balances);
      }
    }
  }

  lemma {:induction false} EvensOutRest(t: Table, t1: Table, sent: bool, rows: seq<Tx>, i: nat, ticks: nat -> SignTick,
                                        c: Config, balances: map<Address, real>, m: nat)
    requires i <= |rows| && WellFormed(t1) && Current(t1, rows, i, IsUnsubmitted)
    requires Gap(t, Distinct(c.signers), m) >= 0 && GapStep(t, t1, sent, c.signers, m)
    ensures Evened(t, SignRows(t1, rows, i, ticks, c, balances).state,
                   (if sent then 1 else 0) + Broadcasts(t1, rows, i, ticks, c, balances), c.signers, m)
    decreases |rows| - i, 1
  {
    if sent && Gap(t, Distinct(c.signers), m) == 0 {
      SigningKeepsSpread(t1, rows, i, ticks, c, balances, 1);
    } else {
      SigningEvensOut(t1, rows, i, ticks, c, balances, m);
      EvenedLater(t, t1, SignRows(t1, rows, i, ticks, c, balances).state, Broadcasts(t1, rows, i, ticks, c, balances),
                  if sent then 1 else 0, c.signers, m);
    }
  }
}
