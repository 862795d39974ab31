/** What each phase of a watcher pass does to the table, one fetched row at a time. */
module Phases {
  import opened Wrappers
  import opened Transactions
  import opened Signers

  // ---- what the outside world may answer -------------------------------------------------

  /** `getTransactionByHashAsync`: a value, an absent value, or one of two kinds of exception. */
  datatype NodeReply =
    | NoReply
    | NullReply
    | NotFoundTypeError
    | RpcError
    | Found(hasHash: bool, block: Option<nat>)

  /** One round of the sync loop; a missing block date is a failed request. */
  datatype SyncTick = SyncTick(blockDate: Option<int>, reply: NodeReply)

  datatype LimiterReply = Allowed | Limited | LimiterThrew

  datatype Broadcast = BroadcastFailed | Sent(hash: Hash, nonce: nat, gas: nat)

  datatype SignTick = SignTick(limiter: LimiterReply, now: int, broadcast: Broadcast)

  /** A missing hash is a transfer the node refused. */
  datatype UnstickTick = UnstickTick(hash: Option<Hash>, now: int)

  datatype Receipt = Receipt(gasUsed: nat, status: Option<int>)

  datatype ConfirmTick = ConfirmTick(reply: NodeReply, receipt: Option<Receipt>)

  datatype Config = Config(signers: seq<Address>, expectedMinedMs: int, blocksUntilConfirmed: nat)

  const ETH_TRANSFER_GAS_LIMIT := 21000

  // ---- phase 1: cancel, or sign and broadcast --------------------------------------------

  function SignRow(t: Table, tx: Tx, tick: SignTick, c: Config, balances: map<Address, real>): Outcome<Table> {
    if tick.limiter == LimiterThrew then Outcome(t, false)
    else if tick.limiter == Limited then
      // the warning reads a prefix of the API key before the row is touched
      if tx.apiKey.None? then Outcome(t, false)
      else Outcome(Put(t, tx.(status := Cancelled)), true)
    else if tick.now > tx.expectedAt then Outcome(Put(t, tx.(status := Cancelled)), true)
    else Outcome(SignAndBroadcast(t, tx, tick.broadcast, c, balances), true)
  }

  /** Any failure in here is caught and logged, and leaves the row waiting for the next pass. */
  function SignAndBroadcast(t: Table, tx: Tx, b: Broadcast, c: Config, balances: map<Address, real>): Table {
    var signer := NextSigner(t, c.signers, balances);
    if signer.None? || tx.to.None? || tx.value.None? || tx.gasPrice.None? || tx.data.None? || b.BroadcastFailed? then t
    else
      var signed := tx.(status := Submitted, txHash := Some(b.hash), nonce := Some(b.nonce),
                        from := signer, gas := Some(b.gas));
      if HashTaken(t, signed) then t else Put(t, signed)
  }

  function SignRows(t: Table, rows: seq<Tx>, i: nat, ticks: nat -> SignTick, c: Config,
                    balances: map<Address, real>): Outcome<Table>
    requires i <= |rows|
    decreases |rows| - i
  {
    if i == |rows| then Outcome(t, true)
    else
      var step := SignRow(t, rows[i], ticks(i), c, balances);
      if step.ok then SignRows(step.state, rows, i + 1, ticks, c, balances) else step
  }

  // ---- phase 2: ask the node about every pending row -------------------------------------

  function AbortRivals(t: Table, winner: Tx): Table {
    map k | k in t :: if Rival(t[k], winner) then t[k].(status := Aborted) else t[k]
  }

  function SyncRow(t: Table, tx: Tx, tick: SyncTick): Outcome<Table> {
    if tick.blockDate.None? then Outcome(t, false)
    else
      var expired := tx.expectedAt <= tick.blockDate.value;
      if tx.txHash.None? then Outcome(t, true)
      else match tick.reply
        case RpcError => Outcome(t, false)
        case NoReply => Outcome(t, true)
        case NullReply => Outcome(t, true)
        case NotFoundTypeError =>
          Outcome(if expired then Put(t, tx.(status := Dropped)) else t, true)
        case Found(hasHash, block) =>
          if !hasHash then Outcome(t, true)
          else if block.Some? then
            var mined := tx.(status := Included, blockNumber := block);
            Outcome(AbortRivals(Put(t, mined), mined), true)
          else if !expired && tx.status != Mempool then Outcome(Put(t, tx.(status := Mempool)), true)
          else if expired then Outcome(Put(t, tx.(status := Stuck)), true)
          else Outcome(t, true)
  }

  function SyncRows(t: Table, rows: seq<Tx>, i: nat, ticks: nat -> SyncTick): Outcome<Table>
    requires i <= |rows|
    decreases |rows| - i
  {
    if i == |rows| then Outcome(t, true)
    else
      var step := SyncRow(t, rows[i], ticks(i));
      if step.ok then SyncRows(step.state, rows, i + 1, ticks) else step
  }

  // ---- phase 3: outbid every stuck row ---------------------------------------------------

  function ReplacementFor(tx: Tx, hash: Hash, target: nat, now: int, c: Config): Tx {
    Tx(hash, Some(hash), Submitted, tx.from, None, Some(0), Some(target), Some(ETH_TRANSFER_GAS_LIMIT),
       tx.from, tx.nonce, None, None, None, None, now + c.expectedMinedMs)
  }

  function UnstickRow(t: Table, tx: Tx, target: nat, tick: UnstickTick, c: Config): Outcome<Table> {
    if tx.from.None? then Outcome(t, true)
    else if tx.gasPrice.Some? && tx.gasPrice.value >= target then Outcome(t, true)
    else if tx.from.value !in c.signers then Outcome(t, false)
    else if tx.nonce.None? || tick.hash.None? then Outcome(t, true)
    else
      var bid := ReplacementFor(tx, tick.hash.value, target, tick.now, c);
      Outcome(if HashTaken(t, bid) then t else Put(t, bid), true)
  }

  function UnstickRows(t: Table, rows: seq<Tx>, i: nat, target: nat, ticks: nat -> UnstickTick,
                       c: Config): Outcome<Table>
    requires i <= |rows|
    decreases |rows| - i
  {
    if i == |rows| then Outcome(t, true)
    else
      var step := UnstickRow(t, rows[i], target, ticks(i), c);
      if step.ok then UnstickRows(step.state, rows, i + 1, target, ticks, c) else step
  }

  /** The gas station is asked only when something is stuck; a missing price is its exception. */
  function UnstickPhase(t: Table, rows: seq<Tx>, target: Option<nat>, ticks: nat -> UnstickTick,
                        c: Config): Outcome<Table> {
    if rows == [] then Outcome(t, true)
    else if target.None? then Outcome(t, false)
    else UnstickRows(t, rows, 0, target.value, ticks, c)
  }

  // ---- phase 4: confirm or undo included rows --------------------------------------------

  function ConfirmRow(t: Table, tx: Tx, head: nat, tick: ConfirmTick, c: Config): Outcome<Table> {
    if tx.txHash.None? || tx.blockNumber.None? then Outcome(t, true)
    else match tick.reply
      case RpcError => Outcome(t, false)
      case NotFoundTypeError => Outcome(t, false)
      case NullReply => Outcome(t, false)
      case NoReply => Outcome(Put(t, tx.(status := Submitted)), true)
      case Found(_, block) =>
        if block.None? then Outcome(Put(t, tx.(status := Mempool, blockNumber := None)), true)
        else if tx.blockNumber.value + c.blocksUntilConfirmed < head then
          if tick.receipt.None? then Outcome(t, false)
          else
            var r := tick.receipt.value;
            Outcome(Put(t, tx.(status := Confirmed, gasUsed := Some(r.gasUsed),
                               txStatus := if r.status.None? then tx.txStatus else r.status)), true)
        else Outcome(t, true)
  }

  function ConfirmRows(t: Table, rows: seq<Tx>, i: nat, head: nat, ticks: nat -> ConfirmTick, c: Config): Outcome<Table>
    requires i <= |rows|
    decreases |rows| - i
  {
    if i == |rows| then Outcome(t, true)
    else
      var step := ConfirmRow(t, rows[i], head, ticks(i), c);
      if step.ok then ConfirmRows(step.state, rows, i + 1, head, ticks, c) else step
  }
}
