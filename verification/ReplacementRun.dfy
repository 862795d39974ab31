/** One possible run in which a stuck transaction is outbid, and the replacement is mined and confirmed. */
module ReplacementRun {
  import opened Wrappers
  import opened Transactions
  import opened Phases
  import opened Signers
  import opened WatcherInvariants
  import opened WatcherRuns

  const CONFIG := Config(["signer"], 1000, 3)

  /** The row queued, signed, found stuck, and aborted once its replacement is mined. */
  const QUEUED := Tx("ref", None, Unsubmitted, Some("exchange"), Some("0x"), Some(0), Some(10), None, None, None,
                     None, None, None, None, 100)
  const SIGNED := QUEUED.(status := Submitted, txHash := Some("x"), nonce := Some(5), from := Some("signer"),
                          gas := Some(90000))
  const STUCK := SIGNED.(status := Stuck)
  const ABORTED := SIGNED.(status := Aborted)

  /** The row the watcher writes itself. */
  const BID := Tx("y", Some("y"), Submitted, Some("signer"), None, Some(0), Some(20), Some(21000), Some("signer"),
                  Some(5), None, None, None, None, 1200)
  const MINED := BID.(status := Included, blockNumber := Some(100))
  const CONFIRMED := MINED.(status := Confirmed, gasUsed := Some(21000), txStatus := Some(1))

  /** The first pass signs the row, finds it late, and outbids it. */
  function Outbid(): PassInput {
    PassInput(map[], [QUEUED], (_: nat) => SignTick(Allowed, 50, Sent("x", 5, 90000)),
              [SIGNED], (_: nat) => SyncTick(Some(200), Found(true, None)),
              [STUCK], Some(20), (_: nat) => UnstickTick(Some("y"), 200),
              None, [], (_: nat) => ConfirmTick(NoReply, None))
  }

  /** The second finds the replacement in block 100, and block 104 on top. */
  function Settle(): PassInput {
    PassInput(map[], [], (_: nat) => SignTick(Allowed, 50, BroadcastFailed),
              [STUCK, BID], (n: nat) => SyncTick(Some(300), if n == 0 then NullReply else Found(true, Some(100))),
              [], None, (_: nat) => UnstickTick(None, 300),
              Some(104), [MINED], (_: nat) => ConfirmTick(Found(true, Some(100)), Some(Receipt(21000, Some(1)))))
  }

  lemma OneSigner(t: Table, balances: map<Address, real>)
    ensures NextSigner(t, CONFIG.signers, balances) == Some("signer")
  {
    NextSignerLeastLoaded(t, CONFIG.signers, balances);
    assert NextSigner(t, CONFIG.signers, balances).value in CONFIG.signers;
  }

  lemma FirstSigned()
    ensures SignRow(map["ref" := QUEUED], QUEUED, SignTick(Allowed, 50, Sent("x", 5, 90000)), CONFIG, map[])
         == Outcome(map["ref" := SIGNED], true)
  {
    var t := map["ref" := QUEUED];
    OneSigner(t, map[]);
    assert !HashTaken(t, SIGNED);
    assert Put(t, SIGNED) == map["ref" := SIGNED];
  }

  lemma ThenStuck()
    ensures SyncRow(map["ref" := SIGNED], SIGNED, SyncTick(Some(200), Found(true, None)))
         == Outcome(map["ref" := STUCK], true)
  {
    assert Put(map["ref" := SIGNED], STUCK) == map["ref" := STUCK];
  }

  lemma ThenOutbid()
    ensures UnstickRow(map["ref" := STUCK], STUCK, 20, UnstickTick(Some("y"), 200), CONFIG)
         == Outcome(map["ref" := STUCK, "y" := BID], true)
  {
    var t := map["ref" := STUCK];
    assert "signer" == CONFIG.signers[0];
    assert STUCK.txHash == Some("x") && "x"[0] != "y"[0];
    assert !HashTaken(t, BID);
    assert ReplacementFor(STUCK, "y", 20, 200, CONFIG) == BID;
    assert Put(t, BID) == map["ref" := STUCK, "y" := BID];
  }

  /** A loop over one row is one turn. */
  lemma OneTurn(t: Table, tx: Tx, target: nat, head: nat, sign: nat -> SignTick, sync: nat -> SyncTick,
                unstick: nat -> UnstickTick, confirm: nat -> ConfirmTick, balances: map<Address, real>)
    ensures SignRows(t, [tx], 0, sign, CONFIG, balances) == SignRow(t, tx, sign(0), CONFIG, balances)
    ensures SyncRows(t, [tx], 0, sync) == SyncRow(t, tx, sync(0))
    ensures UnstickRows(t, [tx], 0, target, unstick, CONFIG) == UnstickRow(t, tx, target, unstick(0), CONFIG)
    ensures ConfirmRows(t, [tx], 0, head, confirm, CONFIG) == ConfirmRow(t, tx, head, confirm(0), CONFIG)
  {
  }

  lemma OutbidPhases()
    ensures var t, p := map["ref" := QUEUED], Outbid();
      && AfterSigning(t, p, CONFIG) == map["ref" := SIGNED]
      && AfterSync(t, p, CONFIG) == Outcome(map["ref" := STUCK], true)
      && AfterUnstick(t, p, CONFIG) == Outcome(map["ref" := STUCK, "y" := BID], true)
      && Pass(t, p, CONFIG) == map["ref" := STUCK, "y" := BID]
  {
    var p := Outbid();
    FirstSigned();
    OneTurn(map["ref" := QUEUED], QUEUED, 20, 0, p.sign, p.sync, p.unstick, p.confirm, map[]);
    ThenStuck();
    OneTurn(map["ref" := SIGNED], SIGNED, 20, 0, p.sign, p.sync, p.unstick, p.confirm, map[]);
    ThenOutbid();
    OneTurn(map["ref" := STUCK], STUCK, 20, 0, p.sign, p.sync, p.unstick, p.confirm, map[]);
  }

  /** A query over a table of one row that passes it returns that row. */
  lemma OneListed(k: Hash, tx: Tx, keep: Tx -> bool)
    requires tx.refHash == k && keep(tx)
    ensures Listing([tx], map[k := tx], keep)
  {
    assert [tx][0] == tx;
  }

  lemma OutbidPossible()
    ensures Fetched(map["ref" := QUEUED], Outbid(), CONFIG)
    ensures Honest(map["ref" := QUEUED], Outbid(), CONFIG)
  {
    OutbidPhases();
    OneListed("ref", QUEUED, IsUnsubmitted);
    OneListed("ref", SIGNED, Pending);
    OneListed("ref", STUCK, IsStuck);
    assert "y"[0] != "ref"[0];
    assert HonestHash(map["ref" := STUCK], ReplacementFor(STUCK, "y", 20, 200, CONFIG));
  }

  lemma NotFound()
    ensures SyncRow(map["ref" := STUCK, "y" := BID], STUCK, SyncTick(Some(300), NullReply))
         == Outcome(map["ref" := STUCK, "y" := BID], true)
  {
  }

  lemma ThenMined()
    ensures SyncRow(map["ref" := STUCK, "y" := BID], BID, SyncTick(Some(300), Found(true, Some(100))))
         == Outcome(map["ref" := ABORTED, "y" := MINED], true)
  {
    var t := map["ref" := STUCK, "y" := BID];
    assert "ref"[0] != "y"[0] && "x"[0] != "y"[0];
    assert Put(t, MINED) == map["ref" := STUCK, "y" := MINED];
    assert AbortRivals(Put(t, MINED), MINED) == map["ref" := ABORTED, "y" := MINED];
  }

  lemma ThenConfirmed()
    ensures ConfirmRow(map["ref" := ABORTED, "y" := MINED], MINED, 104,
                       ConfirmTick(Found(true, Some(100)), Some(Receipt(21000, Some(1)))), CONFIG)
         == Outcome(map["ref" := ABORTED, "y" := CONFIRMED], true)
  {
    assert "ref"[0] != "y"[0];
    assert Put(map["ref" := ABORTED, "y" := MINED], CONFIRMED) == map["ref" := ABORTED, "y" := CONFIRMED];
  }

  lemma SettleSync()
    ensures SyncRows(map["ref" := STUCK, "y" := BID], [STUCK, BID], 0, Settle().sync)
         == Outcome(map["ref" := ABORTED, "y" := MINED], true)
  {
    var t, rows, ticks := map["ref" := STUCK, "y" := BID], [STUCK, BID], Settle().sync;
    NotFound();
    ThenMined();
    assert rows[0] == STUCK && rows[1] == BID;
    assert SyncRows(t, rows, 0, ticks) == SyncRows(t, rows, 1, ticks);
    assert SyncRows(t, rows, 1, ticks) == SyncRow(t, BID, ticks(1));
  }

  lemma SettlePhases()
    ensures var t, p := map["ref" := STUCK, "y" := BID], Settle();
      && AfterSigning(t, p, CONFIG) == t
      && AfterSync(t, p, CONFIG) == Outcome(map["ref" := ABORTED, "y" := MINED], true)
      && AfterUnstick(t, p, CONFIG) == Outcome(map["ref" := ABORTED, "y" := MINED], true)
      && Pass(t, p, CONFIG) == map["ref" := ABORTED, "y" := CONFIRMED]
  {
    var p := Settle();
    SettleSync();
    ThenConfirmed();
    OneTurn(map["ref" := ABORTED, "y" := MINED], MINED, 0, 104, p.sign, p.sync, p.unstick, p.confirm, map[]);
  }

  lemma SettleLists()
    ensures var t, t2 := map["ref" := STUCK, "y" := BID], map["ref" := ABORTED, "y" := MINED];
      && Listing([], t, IsUnsubmitted) && Listing([STUCK, BID], t, Pending)
      && Listing([], t2, IsStuck) && Listing([MINED], t2, IsIncluded)
  {
    assert "y"[0] != "ref"[0];
    assert [STUCK, BID][0] == STUCK && [STUCK, BID][1] == BID && [MINED][0] == MINED;
  }

  lemma SettlePossible()
    ensures Fetched(map["ref" := STUCK, "y" := BID], Settle(), CONFIG)
    ensures Honest(map["ref" := STUCK, "y" := BID], Settle(), CONFIG)
  {
    SettlePhases();
    SettleLists();
  }

  lemma SettleStep()
    ensures var t, e := map["ref" := STUCK, "y" := BID], Poll(Settle());
      && Possible(t, e, CONFIG) && Honest(t, Settle(), CONFIG)
      && Apply(t, e, CONFIG) == map["ref" := ABORTED, "y" := CONFIRMED]
  {
    SettlePhases();
    SettlePossible();
  }

  lemma OutbidStep()
    ensures var t, e := map["ref" := QUEUED], Poll(Outbid());
      && Possible(t, e, CONFIG) && Honest(t, Outbid(), CONFIG)
      && Apply(t, e, CONFIG) == map["ref" := STUCK, "y" := BID]
  {
    OutbidPhases();
    OutbidPossible();
  }

  /** `run` is a possible and honest run, and leads to `t`. */
  ghost predicate Leads(run: seq<Event>, t: Table) {
    PossibleRun(run, CONFIG) && HonestRun(run, CONFIG) && After(run, CONFIG) == t
  }

  /** One event more. */
  lemma Continue(run: seq<Event>, t: Table, e: Event, t': Table)
    requires Leads(run, t) && Possible(t, e, CONFIG) && Apply(t, e, CONFIG) == t'
    requires e.Poll? ==> Honest(t, e.input, CONFIG)
    ensures Leads(run + [e], t')
  {
    var longer := run + [e];
    assert longer[..|longer| - 1] == run;
    forall n | 0 <= n < |longer| && longer[n].Poll?
        ensures Honest(After(longer[..n], CONFIG), longer[n].input, CONFIG) {
      assert longer[..n] == run[..n];
      assert n < |run| ==> run[n].Poll?;
    }
  }

  /** A possible run that puts a replacement into the table. */
  lemma ReplacementSent() returns (run: seq<Event>)
    ensures run == [Queue(QUEUED), Poll(Outbid())] && Leads(run, map["ref" := STUCK, "y" := BID])
  {
    Continue([], map[], Queue(QUEUED), map["ref" := QUEUED]);
    run := [] + [Queue(QUEUED)];
    OutbidStep();
    Continue(run, map["ref" := QUEUED], Poll(Outbid()), map["ref" := STUCK, "y" := BID]);
    run := run + [Poll(Outbid())];
  }

  /** And one more pass in which the replacement wins: it is confirmed, and the row it outbid aborted. */
  lemma ReplacementWins() returns (run: seq<Event>)
    ensures run == [Queue(QUEUED), Poll(Outbid()), Poll(Settle())]
    ensures Leads(run, map["ref" := ABORTED, "y" := CONFIRMED])
  {
    run := ReplacementSent();
    SettleStep();
    Continue(run, map["ref" := STUCK, "y" := BID], Poll(Settle()), map["ref" := ABORTED, "y" := CONFIRMED]);
    run := run + [Poll(Settle())];
  }
}
