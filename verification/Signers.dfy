/** Choosing the signer with the least pending work. */
module Signers {
  import opened Wrappers
  import opened Transactions
  import opened Sorting

  datatype Load = Load(count: nat, balance: real)

  /** One entry of the JavaScript `Map` from signer address to load. */
  datatype Entry = Entry(address: Address, load: Load)

  /** The comparator `getSortedSignersByAvailability` hands to `sort`. */
  function CompareEntries(a: Entry, b: Entry): real {
    if a.load.count == b.load.count then b.load.balance - a.load.balance
    else a.load.count as real - b.load.count as real
  }

  function SortedEntries(entries: seq<Entry>): seq<Entry> {
    SortBy(entries, (a, b) => CompareEntries(a, b) <= 0.0)
  }

  function SortedByAvailability(entries: seq<Entry>): (addresses: seq<Address>)
    ensures |addresses| == |entries|
  {
    var sorted := SortedEntries(entries);
    seq(|sorted|, i requires 0 <= i < |sorted| => sorted[i].address)
  }

  /** Less pending work comes first; among equals, the larger balance does. */
  predicate Before(a: Entry, b: Entry) {
    a.load.count < b.load.count || (a.load.count == b.load.count && a.load.balance >= b.load.balance)
  }

  /** Pending rows of one sender: the grouped count query. */
  function PendingKeys(t: Table, a: Address): (ks: set<Hash>)
    ensures forall k :: k in ks <==> k in t && Pending(t[k]) && t[k].from == Some(a)
  {
    set k | k in t && Pending(t[k]) && t[k].from == Some(a)
  }

  function PendingCount(t: Table, a: Address): nat {
    |PendingKeys(t, a)|
  }

  /** A `Map` keeps the first position of each key. */
  function Distinct(s: seq<Address>): (r: seq<Address>)
    ensures forall a :: a in r <==> a in s
    ensures s == [] ==> r == []
    ensures forall i, j :: 0 <= i < j < |r| ==> r[i] != r[j]
  {
    if s == [] then []
    else
      var r := Distinct(s[..|s| - 1]);
      var a := s[|s| - 1];
      assert s == s[..|s| - 1] + [a];
      if a in s[..|s| - 1] then r else r + [a]
  }

  /** A balance not known yet counts as nothing. */
  function BalanceOf(a: Address, balances: map<Address, real>): real {
    if a in balances then balances[a] else 0.0
  }

  function EntryFor(t: Table, a: Address, balances: map<Address, real>): Entry {
    Entry(a, Load(PendingCount(t, a), BalanceOf(a, balances)))
  }

  function SignerMap(t: Table, signers: seq<Address>, balances: map<Address, real>): (entries: seq<Entry>)
    ensures forall a :: a in signers ==> EntryFor(t, a, balances) in entries
    ensures signers == [] ==> entries == []
    ensures forall e :: e in entries ==> e.address in signers && e == EntryFor(t, e.address, balances)
  {
    var keys := Distinct(signers);
    var entries := seq(|keys|, i requires 0 <= i < |keys| => EntryFor(t, keys[i], balances));
    assert forall a :: a in signers ==> EntryFor(t, a, balances) in entries by {
      forall a | a in signers ensures EntryFor(t, a, balances) in entries {
        assert a in keys;
        var i :| 0 <= i < |keys| && keys[i] == a;
        assert entries[i] == EntryFor(t, a, balances);
      }
    }
    entries
  }

  function NextSigner(t: Table, signers: seq<Address>, balances: map<Address, real>): Option<Address> {
    var sorted := SortedByAvailability(SignerMap(t, signers, balances));
    if sorted == [] then None else Some(sorted[0])
  }

  lemma AvailabilityIsPreorder()
    ensures TotalPreorder((a: Entry, b: Entry) => CompareEntries(a, b) <= 0.0)
  {
  }

  /**
   * The published order: fewest pending transactions first, and among equals the richest first;
   * no signer is lost or invented.
   */
  lemma SortedByAvailabilityOrder(entries: seq<Entry>)
    ensures multiset(SortedEntries(entries)) == multiset(entries)
    ensures forall i, j :: 0 <= i < j < |SortedEntries(entries)| ==>
      Before(SortedEntries(entries)[i], SortedEntries(entries)[j])
  {
    AvailabilityIsPreorder();
    var leq := (a: Entry, b: Entry) => CompareEntries(a, b) <= 0.0;
    SortByCorrect(entries, leq);
    var sorted := SortBy(entries, leq);
    forall i, j | 0 <= i < j < |sorted|
      ensures Before(sorted[i], sorted[j])
    {
      assert leq(sorted[i], sorted[j]);
    }
  }

  /** The chosen signer is a configured one that comes before all others: nobody has less pending work. */
  lemma NextSignerLeastLoaded(t: Table, signers: seq<Address>, balances: map<Address, real>)
    ensures NextSigner(t, signers, balances).None? <==> signers == []
    ensures forall a :: NextSigner(t, signers, balances) == Some(a) ==>
      && a in signers
      && (forall b :: b in signers ==>
        || PendingCount(t, a) < PendingCount(t, b)
        || (PendingCount(t, a) == PendingCount(t, b) && BalanceOf(a, balances) >= BalanceOf(b, balances)))
  {
    var entries := SignerMap(t, signers, balances);
    var sorted := SortedEntries(entries);
    SortedByAvailabilityOrder(entries);
    if signers != [] {
      assert EntryFor(t, signers[0], balances) in entries;
      assert sorted[0] in multiset(entries);
      forall b | b in signers ensures Before(sorted[0], EntryFor(t, b, balances)) {
        var e := EntryFor(t, b, balances);
        assert e in multiset(sorted);
        var j :| 0 <= j < |sorted| && sorted[j] == e;
      }
    }
  }
}
