/** The cached order table, and what events and whole batches do to it. */
module OrderCache {
  import opened Wrappers
  import opened Orders

  /** Rows by primary key: the order hash. */
  type Cache = map<Hash, ApiOrder>

  function HashSet(orders: seq<ApiOrder>): (hs: set<Hash>)
    ensures forall h :: h in hs <==> exists o :: o in orders && o.orderHash == h
  {
    set o | o in orders :: o.orderHash
  }

  // ---- removing ----------------------------------------------------------------------------

  function RemoveAll(c: Cache, orders: seq<ApiOrder>): Cache {
    c - HashSet(orders)
  }

  // ---- adding and updating -----------------------------------------------------------------

  /** The orders that may be cached; `None` if some asset data does not decode. */
  function Allowed(orders: seq<ApiOrder>, ignored: seq<Address>): Option<seq<ApiOrder>> {
    if orders == [] then Some([])
    else
      var last := orders[|orders| - 1];
      var before := Allowed(orders[..|orders| - 1], ignored);
      var skip := IsIgnoredOrder(ignored, last.order);
      if before.None? || skip.None? then None
      else if skip.value then before
      else Some(before.value + [last])
  }

  /** Upserts by primary key, in order. */
  function SaveAll(c: Cache, orders: seq<ApiOrder>): Cache {
    if orders == [] then c
    else
      var last := orders[|orders| - 1];
      SaveAll(c, orders[..|orders| - 1])[last.orderHash := last]
  }

  /** A filter that throws leaves the table as it was. */
  function AddAll(c: Cache, orders: seq<ApiOrder>, ignored: seq<Address>): Outcome<Cache> {
    var allowed := Allowed(orders, ignored);
    if allowed.None? then Outcome(c, false) else Outcome(SaveAll(c, allowed.value), true)
  }

  predicate MayCache(o: ApiOrder, ignored: seq<Address>) {
    IsIgnoredOrder(ignored, o.order) == Some(false)
  }

  lemma {:induction false} AllowedExactly(orders: seq<ApiOrder>, ignored: seq<Address>)
    ensures Allowed(orders, ignored).Some? <==> forall o :: o in orders ==> IsIgnoredOrder(ignored, o.order).Some?
    ensures Allowed(orders, ignored).Some? ==>
      forall o :: o in Allowed(orders, ignored).value <==> o in orders && MayCache(o, ignored)
  {
    if orders == [] {
    } else {
      AllowedExactly(orders[..|orders| - 1], ignored);
      assert orders == orders[..|orders| - 1] + [orders[|orders| - 1]];
    }
  }

  lemma HashSetNext(orders: seq<ApiOrder>, o: ApiOrder)
    ensures HashSet(orders + [o]) == HashSet(orders) + {o.orderHash}
  {
    forall h ensures h in HashSet(orders + [o]) <==> h in HashSet(orders) || h == o.orderHash {
      if h in HashSet(orders) {
        var p :| p in orders && p.orderHash == h;
        assert p in orders + [o];
      }
      assert o in orders + [o];
    }
  }

  /** Where a row of the saved table comes from. */
  ghost predicate SavedFrom(c: Cache, orders: seq<ApiOrder>, h: Hash, row: ApiOrder) {
    (row in orders && row.orderHash == h) || (h !in HashSet(orders) && h in c && row == c[h])
  }

  lemma {:induction false} SaveAllRow(c: Cache, orders: seq<ApiOrder>, h: Hash)
    ensures h in SaveAll(c, orders) <==> h in c || h in HashSet(orders)
    ensures h in SaveAll(c, orders) ==> SavedFrom(c, orders, h, SaveAll(c, orders)[h])
  {
    if orders == [] {
    } else {
      var before, last := orders[..|orders| - 1], orders[|orders| - 1];
      assert orders == before + [last];
      SaveAllRow(c, before, h);
      HashSetNext(before, last);
    }
  }

  lemma SaveAllExactly(c: Cache, orders: seq<ApiOrder>)
    ensures SaveAll(c, orders).Keys == c.Keys + HashSet(orders)
    ensures forall h :: h in SaveAll(c, orders) ==> SavedFrom(c, orders, h, SaveAll(c, orders)[h])
  {
    forall h
      ensures h in SaveAll(c, orders) <==> h in c || h in HashSet(orders)
      ensures h in SaveAll(c, orders) ==> SavedFrom(c, orders, h, SaveAll(c, orders)[h])
    {
      SaveAllRow(c, orders, h);
    }
  }

  /** Every row is under its own hash and is as it should be. */
  ghost predicate Stored(c: Cache, good: ApiOrder -> bool) {
    forall h :: h in c ==> c[h].orderHash == h && good(c[h])
  }

  /** The table stays as it should be if what is added is, ignored orders aside. */
  lemma AddAllStored(c: Cache, orders: seq<ApiOrder>, ignored: seq<Address>, good: ApiOrder -> bool)
    requires Stored(c, good) && forall o :: o in orders && MayCache(o, ignored) ==> good(o)
    ensures Stored(AddAll(c, orders, ignored).state, good)
  {
    AllowedExactly(orders, ignored);
    if Allowed(orders, ignored).Some? {
      SaveAllExactly(c, Allowed(orders, ignored).value);
    }
  }

  // ---- a batch of events -------------------------------------------------------------------

  datatype EndState =
    | Added
    | Invalid | Cancelled | Expired | FullyFilled | StoppedWatching | Unfunded
    | Unexpired | FillabilityIncreased | Filled
    | Unknown

  datatype Event = Event(info: OrderInfo, endState: EndState)

  predicate IsRemoval(e: Event) {
    e.endState in {Invalid, Cancelled, Expired, FullyFilled, StoppedWatching, Unfunded}
  }

  predicate IsUpdate(e: Event) {
    e.endState in {Unexpired, FillabilityIncreased, Filled}
  }

  predicate IsAddition(e: Event) {
    e.endState == Added
  }

  function Group(events: seq<Event>, keep: Event -> bool): seq<ApiOrder> {
    if events == [] then []
    else
      var last := events[|events| - 1];
      var before := Group(events[..|events| - 1], keep);
      if keep(last) then before + [ToApiOrder(last.info)] else before
  }

  lemma {:induction false} GroupMembers(events: seq<Event>, keep: Event -> bool)
    ensures forall o :: o in Group(events, keep) <==> exists e :: e in events && keep(e) && ToApiOrder(e.info) == o
  {
    if events == [] {
    } else {
      GroupMembers(events[..|events| - 1], keep);
      assert events == events[..|events| - 1] + [events[|events| - 1]];
    }
  }

  /** What Mesh last said about the order, with nothing fillable if it did not say how much. */
  predicate Reports(e: Event, o: ApiOrder) {
    && o.order == e.info.order && o.orderHash == e.info.orderHash
    && o.remaining == match e.info.fillable
                      case Some(amount) => amount
                      case None => 0
  }

  /** The end state of an event decides which list its order goes to; an unknown one goes nowhere. */
  lemma GroupsByEndState(events: seq<Event>, o: ApiOrder)
    ensures o in Group(events, IsAddition) <==> exists e :: e in events && e.endState == Added && Reports(e, o)
    ensures o in Group(events, IsUpdate) <==>
      exists e :: e in events && e.endState in {Unexpired, FillabilityIncreased, Filled} && Reports(e, o)
    ensures o in Group(events, IsRemoval) <==>
      exists e :: e in events && Reports(e, o)
                  && e.endState in {Invalid, Cancelled, Expired, FullyFilled, StoppedWatching, Unfunded}
  {
    forall e: Event ensures Reports(e, o) <==> ToApiOrder(e.info) == o {
    }
    GroupMembers(events, IsAddition);
    GroupMembers(events, IsUpdate);
    GroupMembers(events, IsRemoval);
  }

  /** The three lists, in one pass over the events. */
  method CalculateAddedRemovedUpdated(events: seq<Event>)
    returns (added: seq<ApiOrder>, removed: seq<ApiOrder>, updated: seq<ApiOrder>)
    ensures added == Group(events, IsAddition)
    ensures removed == Group(events, IsRemoval)
    ensures updated == Group(events, IsUpdate)
  {
    added, removed, updated := [], [], [];
    var i := 0;
    while i < |events|
      invariant 0 <= i <= |events|
      invariant added == Group(events[..i], IsAddition)
      invariant removed == Group(events[..i], IsRemoval)
      invariant updated == Group(events[..i], IsUpdate)
    {
      assert events[..i + 1][..i] == events[..i];
      var order := ToApiOrder(events[i].info);
      match events[i].endState {
        case Added => added := added + [order];
        case Invalid | Cancelled | Expired | FullyFilled | StoppedWatching | Unfunded => removed := removed + [order];
        case Unexpired | FillabilityIncreased | Filled => updated := updated + [order];
        case Unknown =>
      }
      i := i + 1;
    }
    assert events[..i] == events;
  }

  /** The subscription callback: removals first, then updates, then additions. */
  function ApplyGroups(c: Cache, events: seq<Event>, ignored: seq<Address>): Outcome<Cache> {
    var removed := RemoveAll(c, Group(events, IsRemoval));
    var updated := AddAll(removed, Group(events, IsUpdate), ignored);
    if updated.ok then AddAll(updated.state, Group(events, IsAddition), ignored) else updated
  }

  function ApplyOne(c: Cache, e: Event, ignored: seq<Address>): Outcome<Cache> {
    if IsRemoval(e) then Outcome(RemoveAll(c, [ToApiOrder(e.info)]), true)
    else if IsUpdate(e) || IsAddition(e) then AddAll(c, [ToApiOrder(e.info)], ignored)
    else Outcome(c, true)
  }

  lemma LoneGroup(e: Event, keep: Event -> bool)
    ensures Group([e], keep) == if keep(e) then [ToApiOrder(e.info)] else []
  {
    assert [e][..0] == [];
  }

  lemma AddNone(c: Cache, ignored: seq<Address>)
    ensures AddAll(c, [], ignored) == Outcome(c, true) && RemoveAll(c, []) == c
  {
    assert HashSet([]) == {};
  }

  /** The same events one at a time, in the order Mesh sent them. */
  function ApplyInOrder(c: Cache, events: seq<Event>, ignored: seq<Address>): Outcome<Cache> {
    if events == [] then Outcome(c, true)
    else
      var before := ApplyInOrder(c, events[..|events| - 1], ignored);
      if before.ok then ApplyOne(before.state, events[|events| - 1], ignored) else before
  }

  /** A batch of one event is that event. */
  lemma LoneBatch(c: Cache, e: Event, ignored: seq<Address>)
    ensures ApplyGroups(c, [e], ignored) == ApplyOne(c, e, ignored)
  {
    LoneGroup(e, IsRemoval);
    LoneGroup(e, IsUpdate);
    LoneGroup(e, IsAddition);
    AddNone(c, ignored);
    if IsRemoval(e) {
      AddNone(RemoveAll(c, [ToApiOrder(e.info)]), ignored);
    } else {
      AddNone(AddAll(c, [ToApiOrder(e.info)], ignored).state, ignored);
    }
  }

  /** What a batch of one event does, by its end state. */
  lemma OneEvent(c: Cache, e: Event, o: ApiOrder, ignored: seq<Address>)
    requires Reports(e, o)
    ensures ApplyGroups(c, [e], ignored)
         == match e.endState
            case Unknown => Outcome(c, true)
            case Invalid | Cancelled | Expired | FullyFilled | StoppedWatching | Unfunded =>
              Outcome(c - {o.orderHash}, true)
            case Added | Unexpired | FillabilityIncreased | Filled =>
              match IsIgnoredOrder(ignored, o.order)
              case None => Outcome(c, false)
              case Some(skip) => Outcome(if skip then c else c[o.orderHash := o], true)
  {
    LoneBatch(c, e, ignored);
    assert ToApiOrder(e.info) == o && HashSet([o]) == {o.orderHash};
    if IsIgnoredOrder(ignored, o.order).None? {
      AllowedExactly([o], ignored);
      assert o in [o];
    } else {
      AddOne(c, o, ignored);
    }
  }

  /** The filter throws on an order whose asset data it has to decode and cannot. */
  predicate Throws(e: Event, ignored: seq<Address>) {
    (IsUpdate(e) || IsAddition(e)) && IsIgnoredOrder(ignored, e.info.order).None?
  }

  predicate NoneThrows(events: seq<Event>, keep: Event -> bool, ignored: seq<Address>) {
    forall e :: e in events && keep(e) ==> !Throws(e, ignored)
  }

  predicate AllDecodable(events: seq<Event>, ignored: seq<Address>) {
    forall e :: e in events ==> !Throws(e, ignored)
  }

  /** The events before the first that throws. */
  function Reached(events: seq<Event>, ignored: seq<Address>): (r: seq<Event>)
    ensures r <= events && AllDecodable(r, ignored) && (AllDecodable(events, ignored) <==> r == events)
  {
    if events == [] then []
    else
      var n := |events| - 1;
      var before := Reached(events[..n], ignored);
      assert events == events[..n] + [events[n]];
      if before == events[..n] && !Throws(events[n], ignored) then events else before
  }

  // ---- what a batch does to one order ------------------------------------------------------

  datatype Effect = Untouched | Deleted | Saved(order: ApiOrder)

  function Lookup(c: Cache, h: Hash): Option<ApiOrder> {
    if h in c then Some(c[h]) else None
  }

  function Result(effect: Effect, before: Option<ApiOrder>): Option<ApiOrder> {
    match effect
    case Untouched => before
    case Deleted => None
    case Saved(o) => Some(o)
  }

  function EffectOn(e: Event, h: Hash, ignored: seq<Address>): Effect {
    if e.info.orderHash != h then Untouched
    else if IsRemoval(e) then Deleted
    else if (IsUpdate(e) || IsAddition(e)) && MayCache(ToApiOrder(e.info), ignored) then Saved(ToApiOrder(e.info))
    else Untouched
  }

  predicate AnyEvent(e: Event) { true }

  /** The effect of the last of the chosen events that has one on order `h`. */
  function LastEffect(events: seq<Event>, keep: Event -> bool, h: Hash, ignored: seq<Address>): Effect {
    if events == [] then Untouched
    else
      var last := events[|events| - 1];
      if keep(last) && EffectOn(last, h, ignored) != Untouched then EffectOn(last, h, ignored)
      else LastEffect(events[..|events| - 1], keep, h, ignored)
  }

  function OrElse(e: Effect, f: Effect): Effect {
    if e == Untouched then f else e
  }

  /** The last addition counts, or else the last update, or else the removals. */
  function GroupEffect(events: seq<Event>, h: Hash, ignored: seq<Address>): Effect {
    OrElse(LastEffect(events, IsAddition, h, ignored),
           OrElse(LastEffect(events, IsUpdate, h, ignored), LastEffect(events, IsRemoval, h, ignored)))
  }

  /** ... as far as the groups are applied: one that throws stops it and every later one. */
  function ReachedEffect(events: seq<Event>, h: Hash, ignored: seq<Address>): Effect {
    if !NoneThrows(events, IsUpdate, ignored) then LastEffect(events, IsRemoval, h, ignored)
    else if !NoneThrows(events, IsAddition, ignored) then
      OrElse(LastEffect(events, IsUpdate, h, ignored), LastEffect(events, IsRemoval, h, ignored))
    else GroupEffect(events, h, ignored)
  }

  lemma {:induction false} LookupSaved(c: Cache, events: seq<Event>, keep: Event -> bool, h: Hash,
                                       ignored: seq<Address>)
    requires NoneThrows(events, keep, ignored) && forall e :: keep(e) ==> IsUpdate(e) || IsAddition(e)
    ensures Allowed(Group(events, keep), ignored).Some?
    ensures Lookup(SaveAll(c, Allowed(Group(events, keep), ignored).value), h)
         == Result(LastEffect(events, keep, h, ignored), Lookup(c, h))
  {
    if events == [] {
    } else {
      var before, last := events[..|events| - 1], events[|events| - 1];
      assert last in events && NoneThrows(before, keep, ignored);
      LookupSaved(c, before, keep, h, ignored);
      if keep(last) {
        assert EffectOn(last, h, ignored)
            == if last.info.orderHash == h && MayCache(ToApiOrder(last.info), ignored)
               then Saved(ToApiOrder(last.info)) else Untouched;
        SavedNext(c, Group(before, keep), ToApiOrder(last.info), h, ignored);
      }
    }
  }

  lemma GroupThrows(events: seq<Event>, keep: Event -> bool, ignored: seq<Address>)
    requires !NoneThrows(events, keep, ignored)
    ensures Allowed(Group(events, keep), ignored).None?
  {
    GroupMembers(events, keep);
    AllowedExactly(Group(events, keep), ignored);
    var e :| e in events && keep(e) && Throws(e, ignored);
    assert ToApiOrder(e.info) in Group(events, keep);
  }

  lemma SavedNext(c: Cache, orders: seq<ApiOrder>, o: ApiOrder, h: Hash, ignored: seq<Address>)
    requires Allowed(orders, ignored).Some? && IsIgnoredOrder(ignored, o.order).Some?
    ensures Allowed(orders + [o], ignored).Some?
    ensures Lookup(SaveAll(c, Allowed(orders + [o], ignored).value), h)
         == if o.orderHash == h && MayCache(o, ignored) then Some(o)
             else Lookup(SaveAll(c, Allowed(orders, ignored).value), h)
  {
    assert (orders + [o])[..|orders|] == orders;
    if MayCache(o, ignored) {
      SaveLast(c, Allowed(orders, ignored).value, o);
    }
  }

  lemma {:induction false} LookupRemoved(c: Cache, events: seq<Event>, h: Hash, ignored: seq<Address>)
    ensures Lookup(RemoveAll(c, Group(events, IsRemoval)), h)
        == Result(LastEffect(events, IsRemoval, h, ignored), Lookup(c, h))
  {
    if events == [] {
    } else {
      var before, last := events[..|events| - 1], events[|events| - 1];
      LookupRemoved(c, before, h, ignored);
      if IsRemoval(last) {
        RemoveOneMore(c, Group(before, IsRemoval), ToApiOrder(last.info));
      }
    }
  }

  lemma LookupGrouped(c: Cache, events: seq<Event>, h: Hash, ignored: seq<Address>)
    ensures ApplyGroups(c, events, ignored).ok <==> AllDecodable(events, ignored)
    ensures Lookup(ApplyGroups(c, events, ignored).state, h) == Result(ReachedEffect(events, h, ignored), Lookup(c, h))
  {
    var removed := RemoveAll(c, Group(events, IsRemoval));
    LookupRemoved(c, events, h, ignored);
    if !NoneThrows(events, IsUpdate, ignored) {
      GroupThrows(events, IsUpdate, ignored);
    } else {
      LookupSaved(removed, events, IsUpdate, h, ignored);
      var updated := SaveAll(removed, Allowed(Group(events, IsUpdate), ignored).value);
      if !NoneThrows(events, IsAddition, ignored) {
        GroupThrows(events, IsAddition, ignored);
      } else {
        LookupSaved(updated, events, IsAddition, h, ignored);
      }
    }
  }

  lemma {:induction false} LookupInOrder(c: Cache, events: seq<Event>, h: Hash, ignored: seq<Address>)
    ensures ApplyInOrder(c, events, ignored).ok <==> AllDecodable(events, ignored)
    ensures Lookup(ApplyInOrder(c, events, ignored).state, h)
         == Result(LastEffect(Reached(events, ignored), AnyEvent, h, ignored), Lookup(c, h))
  {
    if events == [] {
    } else {
      var before, last := events[..|events| - 1], events[|events| - 1];
      assert events == before + [last];
      LookupInOrder(c, before, h, ignored);
      if AllDecodable(before, ignored) {
        LookupOne(ApplyInOrder(c, before, ignored).state, last, h, ignored);
      }
    }
  }

  lemma LookupOne(c: Cache, e: Event, h: Hash, ignored: seq<Address>)
    ensures ApplyOne(c, e, ignored).ok <==> !Throws(e, ignored)
    ensures Lookup(ApplyOne(c, e, ignored).state, h)
         == if Throws(e, ignored) then Lookup(c, h) else Result(EffectOn(e, h, ignored), Lookup(c, h))
  {
    var o := ToApiOrder(e.info);
    if IsRemoval(e) {
      assert HashSet([o]) == {o.orderHash};
    } else if Throws(e, ignored) {
      AllowedExactly([o], ignored);
      assert o in [o];
    } else if IsUpdate(e) || IsAddition(e) {
      AddOne(c, o, ignored);
    }
  }

  /** Whether an order is touched at all does not depend on the grouping. */
  lemma {:induction false} TouchedEitherWay(events: seq<Event>, h: Hash, ignored: seq<Address>)
    ensures LastEffect(events, AnyEvent, h, ignored) == Untouched <==> GroupEffect(events, h, ignored) == Untouched
  {
    if events == [] {
    } else {
      TouchedEitherWay(events[..|events| - 1], h, ignored);
    }
  }

  lemma SameLookups(a: Cache, b: Cache)
    ensures a == b <==> forall h :: Lookup(a, h) == Lookup(b, h)
  {
    if forall h :: Lookup(a, h) == Lookup(b, h) {
      forall h ensures h in a <==> h in b {
        assert Lookup(a, h) == Lookup(b, h);
      }
      forall h | h in a ensures a[h] == b[h] {
        assert Lookup(a, h) == Lookup(b, h);
      }
    }
  }

  /** What is left of an order when the groups, or the events one at a time, have been applied as far as they go. */
  predicate SameEnd(c: Cache, events: seq<Event>, h: Hash, ignored: seq<Address>) {
    Result(ReachedEffect(events, h, ignored), Lookup(c, h))
    == Result(LastEffect(Reached(events, ignored), AnyEvent, h, ignored), Lookup(c, h))
  }

  /** For any batch, throwing ones included: the two ways differ exactly in the orders they leave differently. */
  lemma AnyBatchMatchesExactly(c: Cache, events: seq<Event>, ignored: seq<Address>)
    ensures ApplyGroups(c, events, ignored).ok == ApplyInOrder(c, events, ignored).ok == AllDecodable(events, ignored)
    ensures ApplyGroups(c, events, ignored) == ApplyInOrder(c, events, ignored)
       <==> forall h :: SameEnd(c, events, h, ignored)
  {
    var grouped, inOrder := ApplyGroups(c, events, ignored), ApplyInOrder(c, events, ignored);
    LookupGrouped(c, events, "", ignored);
    LookupInOrder(c, events, "", ignored);
    forall h ensures Lookup(grouped.state, h) == Lookup(inOrder.state, h) <==> SameEnd(c, events, h, ignored) {
      LookupGrouped(c, events, h, ignored);
      LookupInOrder(c, events, h, ignored);
    }
    SameLookups(grouped.state, inOrder.state);
  }

  /**
   * If every order decodes, applying the three groups equals applying the events one at a time
   * exactly when, for every order, the last event in Mesh's order and the last one in the order of
   * the groups do the same to it. What the table held before does not matter.
   */
  lemma GroupsMatchExactly(c: Cache, events: seq<Event>, ignored: seq<Address>)
    requires AllDecodable(events, ignored)
    ensures ApplyGroups(c, events, ignored) == ApplyInOrder(c, events, ignored)
       <==> forall h :: LastEffect(events, AnyEvent, h, ignored) == GroupEffect(events, h, ignored)
  {
    AnyBatchMatchesExactly(c, events, ignored);
    forall h
      ensures SameEnd(c, events, h, ignored)
         <==> LastEffect(events, AnyEvent, h, ignored) == GroupEffect(events, h, ignored)
    {
      TouchedEitherWay(events, h, ignored);
    }
  }

  // ---- batches that are safe to group ------------------------------------------------------

  function Rank(e: Event): nat {
    if IsRemoval(e) then 0 else if IsUpdate(e) then 1 else if IsAddition(e) then 2 else 3
  }

  /** Events about one order come in the order of the groups. */
  ghost predicate GroupOrdered(events: seq<Event>) {
    forall i, j :: 0 <= i < j < |events| && events[i].info.orderHash == events[j].info.orderHash ==>
      events[i].endState == Unknown || Rank(events[i]) <= Rank(events[j])
  }

  lemma {:induction false} EffectNeedsEvent(events: seq<Event>, keep: Event -> bool, h: Hash, ignored: seq<Address>)
    requires LastEffect(events, keep, h, ignored) != Untouched
    ensures exists i :: 0 <= i < |events| && keep(events[i]) && EffectOn(events[i], h, ignored) != Untouched
  {
    var n := |events| - 1;
    if !(keep(events[n]) && EffectOn(events[n], h, ignored) != Untouched) {
      EffectNeedsEvent(events[..n], keep, h, ignored);
      var i :| 0 <= i < n && keep(events[..n][i]) && EffectOn(events[..n][i], h, ignored) != Untouched;
      assert events[i] == events[..n][i];
    }
  }

  /** No earlier event of a later group touches the order the last event is about. */
  lemma NoLaterGroup(events: seq<Event>, keep: Event -> bool, h: Hash, ignored: seq<Address>)
    requires GroupOrdered(events) && events != [] && events[|events| - 1].info.orderHash == h
    requires forall e :: keep(e) ==> e.endState != Unknown && Rank(e) > Rank(events[|events| - 1])
    ensures LastEffect(events, keep, h, ignored) == Untouched
  {
    forall i | 0 <= i < |events| && keep(events[i]) ensures EffectOn(events[i], h, ignored) == Untouched {
      assert i < |events| - 1;
    }
    if LastEffect(events, keep, h, ignored) != Untouched {
      EffectNeedsEvent(events, keep, h, ignored);
    }
  }

  lemma {:induction false} OrderedEffects(events: seq<Event>, h: Hash, ignored: seq<Address>)
    requires GroupOrdered(events)
    ensures LastEffect(events, AnyEvent, h, ignored) == GroupEffect(events, h, ignored)
  {
    if events == [] {
    } else {
      var last := events[|events| - 1];
      if EffectOn(last, h, ignored) == Untouched {
        OrderedEffects(events[..|events| - 1], h, ignored);
      } else {
        if !IsAddition(last) {
          NoLaterGroup(events, IsAddition, h, ignored);
        }
        if IsRemoval(last) {
          NoLaterGroup(events, IsUpdate, h, ignored);
        }
      }
    }
  }

  /** In particular a batch whose events about one order come in the order of the groups is safe. */
  lemma GroupsMatchOrder(c: Cache, events: seq<Event>, ignored: seq<Address>)
    requires GroupOrdered(events) && AllDecodable(events, ignored)
    ensures ApplyGroups(c, events, ignored) == ApplyInOrder(c, events, ignored)
  {
    GroupsMatchExactly(c, events, ignored);
    forall h ensures LastEffect(events, AnyEvent, h, ignored) == GroupEffect(events, h, ignored) {
      OrderedEffects(events, h, ignored);
    }
  }

  /** ... and so is one that names no order twice. */
  lemma NoRepeatsMatchOrder(c: Cache, events: seq<Event>, ignored: seq<Address>)
    requires forall i, j :: 0 <= i < j < |events| ==> events[i].info.orderHash != events[j].info.orderHash
    requires AllDecodable(events, ignored)
    ensures ApplyGroups(c, events, ignored) == ApplyInOrder(c, events, ignored)
  {
    GroupsMatchOrder(c, events, ignored);
  }

  /** With a repeated order the two may differ: added then cancelled, the groups keep it. */
  lemma RepeatedOrderDiffers(c: Cache, info: OrderInfo, ignored: seq<Address>)
    requires IsIgnoredOrder(ignored, info.order) == Some(false)
    ensures var events := [Event(info, Added), Event(info, Cancelled)];
      && Lookup(ApplyGroups(c, events, ignored).state, info.orderHash) == Some(ToApiOrder(info))
      && Lookup(ApplyInOrder(c, events, ignored).state, info.orderHash) == None
  {
    var events := [Event(info, Added), Event(info, Cancelled)];
    assert events[..1] == [Event(info, Added)] && events[..1][..0] == [];
    assert LastEffect(events[..1], IsAddition, info.orderHash, ignored) == Saved(ToApiOrder(info));
    assert LastEffect(events, IsAddition, info.orderHash, ignored) == Saved(ToApiOrder(info));
    assert AllDecodable(events, ignored);
    LookupGrouped(c, events, info.orderHash, ignored);
    LookupInOrder(c, events, info.orderHash, ignored);
  }

  /** With an order that does not decode they may differ too: the groups remove what comes after it. */
  lemma UndecodableOrderDiffers(c: Cache, bad: OrderInfo, gone: OrderInfo, ignored: seq<Address>)
    requires IsIgnoredOrder(ignored, bad.order).None? && gone.orderHash in c
    ensures var events := [Event(bad, Added), Event(gone, Cancelled)];
      && gone.orderHash !in ApplyGroups(c, events, ignored).state
      && gone.orderHash in ApplyInOrder(c, events, ignored).state
  {
    var events := [Event(bad, Added), Event(gone, Cancelled)];
    assert events[..1] == [Event(bad, Added)] && events[..1][..0] == [];
    assert Event(bad, Added) in events;
    assert LastEffect(events, IsRemoval, gone.orderHash, ignored) == Deleted;
    assert LastEffect(events, IsUpdate, gone.orderHash, ignored)
        == LastEffect(events[..1], IsUpdate, gone.orderHash, ignored) == Untouched;
    assert Reached(events[..1], ignored) == [];
    LookupGrouped(c, events, gone.orderHash, ignored);
    LookupInOrder(c, events, gone.orderHash, ignored);
  }

  // ---- one more order ----------------------------------------------------------------------

  lemma RemoveOneMore(c: Cache, orders: seq<ApiOrder>, o: ApiOrder)
    ensures RemoveAll(c, orders + [o]) == RemoveAll(c, orders) - {o.orderHash}
  {
    HashSetNext(orders, o);
  }

  /** Adding a single order. */
  lemma AddOne(c: Cache, o: ApiOrder, ignored: seq<Address>)
    requires IsIgnoredOrder(ignored, o.order).Some?
    ensures AddAll(c, [o], ignored) == Outcome(if MayCache(o, ignored) then c[o.orderHash := o] else c, true)
  {
    var none: seq<ApiOrder> := [];
    assert [o][..0] == none && none + [o] == [o];
    assert Allowed(none, ignored) == Some(none);
    assert Allowed([o], ignored) == Some(if MayCache(o, ignored) then [o] else none);
    assert SaveAll(c, none) == c;
    SaveLast(c, none, o);
  }

  lemma SaveLast(c: Cache, orders: seq<ApiOrder>, o: ApiOrder)
    ensures SaveAll(c, orders + [o]) == SaveAll(c, orders)[o.orderHash := o]
    ensures SaveAll(c, [o]) == c[o.orderHash := o]
  {
    assert (orders + [o])[..|orders|] == orders;
    assert [o][..0] == [];
  }
}
