/** The `transactions` table and the queries and writes the watcher runs against it. */
module Transactions {
  import opened Wrappers

  type Hash = string
  type Address = string

  datatype Status =
    | Unsubmitted | Submitted | Mempool | Stuck | Included
    | Confirmed | Dropped | Aborted | Cancelled

  datatype Tx = Tx(
    refHash: Hash,
    txHash: Option<Hash>,
    status: Status,
    to: Option<Address>,
    data: Option<string>,
    value: Option<nat>,
    gasPrice: Option<nat>,
    gas: Option<nat>,
    from: Option<Address>,
    nonce: Option<nat>,
    blockNumber: Option<nat>,
    gasUsed: Option<nat>,
    txStatus: Option<int>,
    apiKey: Option<string>,
    expectedAt: int)

  /** Rows by primary key. */
  type Table = map<Hash, Tx>

  predicate Pending(tx: Tx) {
    tx.status in {Submitted, Mempool, Stuck}
  }

  predicate Settled(tx: Tx) {
    tx.status in {Included, Confirmed}
  }

  predicate IsUnsubmitted(tx: Tx) { tx.status == Unsubmitted }
  predicate IsStuck(tx: Tx) { tx.status == Stuck }
  predicate IsIncluded(tx: Tx) { tx.status == Included }

  /** A row the service wrote itself to push a stuck nonce through: it carries no call data. */
  predicate Replacement(tx: Tx) {
    tx.data.None?
  }

  /** Two rows that compete for one slot of one account. */
  predicate SameSlot(a: Tx, b: Tx) {
    a.from.Some? && a.nonce.Some? && a.from == b.from && a.nonce == b.nonce
  }

  /** The abort query. SQL's `tx_hash != x` skips rows whose hash is null. */
  predicate Rival(row: Tx, winner: Tx) {
    SameSlot(row, winner) && row.txHash.Some? && row.txHash != winner.txHash
  }

  /** Saving a row whose hash is already its own: an update by primary key. */
  function Put(t: Table, tx: Tx): Table {
    t[tx.refHash := tx]
  }

  /** The column `tx_hash` is unique, so saving under a hash another row holds throws. */
  predicate HashTaken(t: Table, tx: Tx) {
    exists k :: k in t && k != tx.refHash && t[k].txHash.Some? && t[k].txHash == tx.txHash
  }

  /**
   * `rows` is what `find` may answer for a filter: every row that passes it, once, in any order.
   * The rows are copies: they do not change when the table does.
   */
  ghost predicate Listing(rows: seq<Tx>, t: Table, keep: Tx -> bool) {
    && (forall i :: 0 <= i < |rows| ==> rows[i].refHash in t && rows[i] == t[rows[i].refHash] && keep(rows[i]))
    && (forall i, j :: 0 <= i < j < |rows| ==> rows[i].refHash != rows[j].refHash)
    && (forall k :: k in t && keep(t[k]) ==> t[k] in rows)
  }

  method Find(t: Table, keep: Tx -> bool) returns (rows: seq<Tx>)
    requires forall k :: k in t ==> t[k].refHash == k
    ensures Listing(rows, t, keep)
  {
    rows := [];
    var left := t.Keys;
    while left != {}
      invariant left <= t.Keys
      invariant forall i :: 0 <= i < |rows| ==>
        rows[i].refHash in t && rows[i].refHash !in left && rows[i] == t[rows[i].refHash] && keep(rows[i])
      invariant forall i, j :: 0 <= i < j < |rows| ==> rows[i].refHash != rows[j].refHash
      invariant forall k :: k in t && k !in left && keep(t[k]) ==> t[k] in rows
      decreases left
    {
      var k :| k in left;
      left := left - {k};
      if keep(t[k]) {
        var more := rows + [t[k]];
        assert forall r :: r in rows ==> r in more;
        assert more[|rows|] == t[k];
        rows := more;
      }
    }
  }
}
