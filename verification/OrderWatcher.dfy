/** The order watcher: a full sync with Mesh, the event subscription, and runs of both. */
module OrderWatcher {
  import opened Wrappers
  import opened Orders
  import opened OrderCache
  import opened MeshClient
  import opened Chunking

  /** What a full sync got back: Mesh's own orders, its verdicts on ours, and the clock. */
  datatype SyncAnswers = SyncAnswers(
    snapshot: seq<OrderInfo>, accepted: seq<OrderInfo>, rejected: seq<OrderInfo>, checkedAt: real, savedAt: real)

  function ToRemove(a: SyncAnswers, buffer: int): seq<ApiOrder> {
    ExpiredOf(ToApiOrders(a.accepted), a.checkedAt, buffer) + ToApiOrders(a.rejected)
  }

  function FullSync(c: Cache, a: SyncAnswers, buffer: int, ignored: seq<Address>): Outcome<Cache> {
    AddAll(RemoveAll(c, ToRemove(a, buffer)), FreshOf(ToApiOrders(a.snapshot), a.savedAt, buffer), ignored)
  }

  // ---- what a full sync leaves -------------------------------------------------------------

  function RejectedHashes(a: SyncAnswers): set<Hash> {
    set i | i in a.rejected :: i.orderHash
  }

  function ExpiredHashes(a: SyncAnswers, buffer: int): set<Hash> {
    set i | i in a.accepted && !IsFreshOrder(i.order, a.checkedAt, buffer) :: i.orderHash
  }

  function SnapshotHashes(a: SyncAnswers, buffer: int, ignored: seq<Address>): set<Hash> {
    set i | i in a.snapshot && IsFreshOrder(i.order, a.savedAt, buffer)
        && IsIgnoredOrder(ignored, i.order) == Some(false)
      :: i.orderHash
  }

  lemma ToApiOrdersMembers(infos: seq<OrderInfo>)
    ensures forall o :: o in ToApiOrders(infos) <==> exists i :: i in infos && ToApiOrder(i) == o
  {
    forall o ensures o in ToApiOrders(infos) <==> exists i :: i in infos && ToApiOrder(i) == o {
      if i :| i in infos && ToApiOrder(i) == o {
        var n :| 0 <= n < |infos| && infos[n] == i;
        assert ToApiOrders(infos)[n] == o;
      }
      if o in ToApiOrders(infos) {
        var n :| 0 <= n < |infos| && ToApiOrders(infos)[n] == o;
        assert infos[n] in infos && ToApiOrder(infos[n]) == o;
      }
    }
  }

  lemma RemovedHashes(a: SyncAnswers, buffer: int)
    ensures HashSet(ToRemove(a, buffer)) == RejectedHashes(a) + ExpiredHashes(a, buffer)
  {
    ToApiOrdersMembers(a.accepted);
    ToApiOrdersMembers(a.rejected);
    FreshOrExpired(ToApiOrders(a.accepted), a.checkedAt, buffer);
    var removed := ToRemove(a, buffer);
    forall h ensures h in HashSet(removed) <==> h in RejectedHashes(a) + ExpiredHashes(a, buffer) {
      if h in HashSet(removed) {
        var o :| o in removed && o.orderHash == h;
      }
      if h in RejectedHashes(a) {
        var i :| i in a.rejected && i.orderHash == h;
        assert ToApiOrder(i) in removed;
      }
      if h in ExpiredHashes(a, buffer) {
        var i :| i in a.accepted && !IsFreshOrder(i.order, a.checkedAt, buffer) && i.orderHash == h;
        assert ToApiOrder(i) in removed;
      }
    }
  }

  /** The snapshot orders that get saved. */
  lemma SavedHashes(a: SyncAnswers, buffer: int, ignored: seq<Address>)
    requires Allowed(FreshOf(ToApiOrders(a.snapshot), a.savedAt, buffer), ignored).Some?
    ensures HashSet(Allowed(FreshOf(ToApiOrders(a.snapshot), a.savedAt, buffer), ignored).value)
         == SnapshotHashes(a, buffer, ignored)
  {
    var recent := FreshOf(ToApiOrders(a.snapshot), a.savedAt, buffer);
    AllowedExactly(recent, ignored);
    forall o
      ensures o in recent <==>
        exists i :: i in a.snapshot && ToApiOrder(i) == o && IsFreshOrder(i.order, a.savedAt, buffer)
    {
      FreshSnapshotOrders(a.snapshot, a.savedAt, buffer, o);
    }
    assert forall i :: i in a.snapshot && IsFreshOrder(i.order, a.savedAt, buffer) ==> ToApiOrder(i) in recent;
  }

  lemma FreshSnapshotOrders(infos: seq<OrderInfo>, now: real, buffer: int, o: ApiOrder)
    ensures o in FreshOf(ToApiOrders(infos), now, buffer) <==>
      exists i :: i in infos && ToApiOrder(i) == o && IsFreshOrder(i.order, now, buffer)
  {
    ToApiOrdersMembers(infos);
    FreshOrExpired(ToApiOrders(infos), now, buffer);
  }

  /**
   * After a full sync the cached hashes are exactly the old ones without the rejected and the
   * accepted but expired, plus the fresh orders of the snapshot that are not ignored.
   */
  lemma FullSyncExactly(c: Cache, a: SyncAnswers, buffer: int, ignored: seq<Address>)
    requires FullSync(c, a, buffer, ignored).ok
    ensures FullSync(c, a, buffer, ignored).state.Keys
         == (c.Keys - RejectedHashes(a) - ExpiredHashes(a, buffer)) + SnapshotHashes(a, buffer, ignored)
  {
    RemovedHashes(a, buffer);
    SavedHashes(a, buffer, ignored);
    SaveAllExactly(RemoveAll(c, ToRemove(a, buffer)),
                   Allowed(FreshOf(ToApiOrders(a.snapshot), a.savedAt, buffer), ignored).value);
  }

  /** Every cached order got a verdict. */
  ghost predicate EachAnswered(c: Cache, a: SyncAnswers) {
    forall h :: h in c ==> exists i :: (i in a.accepted || i in a.rejected) && i.orderHash == h
  }

  /** If so, what survives was accepted and fresh, or is in the snapshot. */
  lemma SurvivorsAreVouchedFor(c: Cache, a: SyncAnswers, buffer: int, ignored: seq<Address>, h: Hash)
    requires FullSync(c, a, buffer, ignored).ok && EachAnswered(c, a)
    requires h in FullSync(c, a, buffer, ignored).state
    ensures h in SnapshotHashes(a, buffer, ignored)
         || exists i :: i in a.accepted && i.orderHash == h && IsFreshOrder(i.order, a.checkedAt, buffer)
  {
    FullSyncExactly(c, a, buffer, ignored);
    if h !in SnapshotHashes(a, buffer, ignored) {
      var i :| (i in a.accepted || i in a.rejected) && i.orderHash == h;
    }
  }

  // ---- what Mesh said ----------------------------------------------------------------------

  /** How orders reach Mesh: by http or not, under which hash, in how many bytes. */
  datatype Client = Client(hasHttp: bool, hashOf: Order -> Hash, size: Order -> nat)

  ghost predicate CanSend(client: Client, orders: seq<Order>) {
    Sendable(client.hasHttp, orders, client.size)
  }

  function Chunks(client: Client, orders: seq<Order>): (chunks: seq<seq<Order>>)
    requires CanSend(client, orders)
    ensures Flatten(chunks) == orders
  {
    ChunksOf(client.hasHttp, orders, client.size)
  }

  function VerdictsOn(client: Client, orders: seq<Order>, mesh: Mesh): Results
    requires CanSend(client, orders)
  {
    Verdicts(mesh, Chunks(client, orders), orders, client.hashOf)
  }

  /** The lists that are posted: every row's order once, by whether its maker is pinned. */
  ghost predicate Posted(c: Cache, makers: seq<Address>, pin: seq<Order>, doNotPin: seq<Order>) {
    && |pin| + |doNotPin| == |c|
    && (forall o :: o in pin <==> o.makerAddress in makers && exists h :: h in c && c[h].order == o)
    && (forall o :: o in doNotPin <==> o.makerAddress !in makers && exists h :: h in c && c[h].order == o)
  }

  /** What a full sync works with: the verdicts of the replies to both posts. */
  function AnswersFrom(client: Client, snapshot: seq<OrderInfo>, pin: seq<Order>, pinMesh: Mesh, doNotPin: seq<Order>,
                       otherMesh: Mesh, checkedAt: real, savedAt: real): SyncAnswers
    requires CanSend(client, pin) && CanSend(client, doNotPin)
  {
    var pinned, unpinned := VerdictsOn(client, pin, pinMesh), VerdictsOn(client, doNotPin, otherMesh);
    SyncAnswers(snapshot, pinned.accepted + unpinned.accepted, pinned.rejected + unpinned.rejected, checkedAt, savedAt)
  }

  /** Mesh accepted the order, not yet expired, in its reply to a chunk that carried it. */
  ghost predicate AcceptedInItsChunk(mesh: Mesh, chunks: seq<seq<Order>>, o: Order, h: Hash, now: real, buffer: int) {
    exists k, i :: 0 <= k < |chunks| && o in chunks[k] && mesh(k, chunks[k]).Answered?
                   && i in mesh(k, chunks[k]).accepted && i.orderHash == h && IsFreshOrder(i.order, now, buffer)
  }

  function HashedBy(hashOf: Order -> Hash): ApiOrder -> bool {
    (o: ApiOrder) => hashOf(o.order) == o.orderHash
  }

  lemma SurvivorsNotRejected(c: Cache, a: SyncAnswers, buffer: int, ignored: seq<Address>, h: Hash)
    requires h in FullSync(c, a, buffer, ignored).state && h !in SnapshotHashes(a, buffer, ignored)
    ensures h in c && h !in RejectedHashes(a) && h !in ExpiredHashes(a, buffer)
  {
    RemovedHashes(a, buffer);
    if FullSync(c, a, buffer, ignored).ok {
      FullSyncExactly(c, a, buffer, ignored);
    }
  }

  lemma NotRejectedAccepted(client: Client, orders: seq<Order>, mesh: Mesh, a: SyncAnswers, buffer: int, o: Order)
    requires CanSend(client, orders) && Reliable(mesh, client.hashOf) && o in orders
    requires forall i :: i in VerdictsOn(client, orders, mesh).accepted ==> i in a.accepted
    requires forall i :: i in VerdictsOn(client, orders, mesh).rejected ==> i in a.rejected
    requires client.hashOf(o) !in RejectedHashes(a) && client.hashOf(o) !in ExpiredHashes(a, buffer)
    ensures AcceptedInItsChunk(mesh, Chunks(client, orders), o, client.hashOf(o), a.checkedAt, buffer)
  {
    var rejected := VerdictsOn(client, orders, mesh).rejected;
    if client.hashOf(o) in Hashes(rejected) {
      var i := InHashes(rejected, client.hashOf(o));
    }
    var k, i := AcceptedWhereCarried(mesh, Chunks(client, orders), orders, client.hashOf, o);
    assert i in a.accepted;
  }

  /** The row is a fresh order of the snapshot, or Mesh accepted it on one of the two posts. */
  ghost predicate Vouched(c: Cache, client: Client, pin: seq<Order>, pinMesh: Mesh, doNotPin: seq<Order>,
                          otherMesh: Mesh, a: SyncAnswers, buffer: int, ignored: seq<Address>, h: Hash)
    requires CanSend(client, pin) && CanSend(client, doNotPin)
  {
    || h in SnapshotHashes(a, buffer, ignored)
    || (h in c && AcceptedInItsChunk(pinMesh, Chunks(client, pin), c[h].order, h, a.checkedAt, buffer))
    || (h in c && AcceptedInItsChunk(otherMesh, Chunks(client, doNotPin), c[h].order, h, a.checkedAt, buffer))
  }

  /**
   * Mesh vouches for every row a full sync leaves: it is a fresh order of the snapshot, or Mesh
   * accepted it in the reply to a chunk that carried it. This holds even if the last save throws.
   */
  lemma SurvivorsWereAccepted(c: Cache, client: Client, makers: seq<Address>, pin: seq<Order>, doNotPin: seq<Order>,
                              snapshot: seq<OrderInfo>, pinMesh: Mesh, otherMesh: Mesh, checkedAt: real, savedAt: real,
                              buffer: int, ignored: seq<Address>, h: Hash)
    requires Stored(c, HashedBy(client.hashOf)) && Posted(c, makers, pin, doNotPin)
    requires CanSend(client, pin) && CanSend(client, doNotPin)
    requires Reliable(pinMesh, client.hashOf) && Reliable(otherMesh, client.hashOf)
    ensures var a := AnswersFrom(client, snapshot, pin, pinMesh, doNotPin, otherMesh, checkedAt, savedAt);
      h in FullSync(c, a, buffer, ignored).state ==>
        Vouched(c, client, pin, pinMesh, doNotPin, otherMesh, a, buffer, ignored, h)
  {
    var a := AnswersFrom(client, snapshot, pin, pinMesh, doNotPin, otherMesh, checkedAt, savedAt);
    if h in FullSync(c, a, buffer, ignored).state && h !in SnapshotHashes(a, buffer, ignored) {
      SurvivorsNotRejected(c, a, buffer, ignored, h);
      var o := c[h].order;
      assert HashedBy(client.hashOf)(c[h]);
      if o.makerAddress in makers {
        NotRejectedAccepted(client, pin, pinMesh, a, buffer, o);
      } else {
        NotRejectedAccepted(client, doNotPin, otherMesh, a, buffer, o);
      }
    }
  }

  // ---- runs --------------------------------------------------------------------------------

  datatype Change = Sync(answers: SyncAnswers) | Batch(events: seq<Event>)

  function Apply(c: Cache, change: Change, buffer: int, ignored: seq<Address>): Cache {
    match change
    case Sync(answers) => FullSync(c, answers, buffer, ignored).state
    case Batch(events) => ApplyGroups(c, events, ignored).state
  }

  function After(c: Cache, changes: seq<Change>, buffer: int, ignored: seq<Address>): Cache {
    if changes == [] then c
    else Apply(After(c, changes[..|changes| - 1], buffer, ignored), changes[|changes| - 1], buffer, ignored)
  }

  /** What a change may save is as it should be, ignored orders aside. */
  ghost predicate Brings(change: Change, ignored: seq<Address>, good: ApiOrder -> bool) {
    match change
    case Sync(answers) =>
      forall i :: i in answers.snapshot && MayCache(ToApiOrder(i), ignored) ==> good(ToApiOrder(i))
    case Batch(events) =>
      forall e :: e in events && (IsUpdate(e) || IsAddition(e)) && MayCache(ToApiOrder(e.info), ignored) ==>
        good(ToApiOrder(e.info))
  }

  lemma FullSyncStored(c: Cache, a: SyncAnswers, buffer: int, ignored: seq<Address>, good: ApiOrder -> bool)
    requires Stored(c, good) && Brings(Sync(a), ignored, good)
    ensures Stored(FullSync(c, a, buffer, ignored).state, good)
  {
    var recent := FreshOf(ToApiOrders(a.snapshot), a.savedAt, buffer);
    forall o | o in recent && MayCache(o, ignored) ensures good(o) {
      FreshSnapshotOrders(a.snapshot, a.savedAt, buffer, o);
    }
    AddAllStored(RemoveAll(c, ToRemove(a, buffer)), recent, ignored, good);
  }

  lemma GroupsStored(c: Cache, events: seq<Event>, ignored: seq<Address>, good: ApiOrder -> bool)
    requires Stored(c, good) && Brings(Batch(events), ignored, good)
    ensures Stored(ApplyGroups(c, events, ignored).state, good)
  {
    var removed := RemoveAll(c, Group(events, IsRemoval));
    GroupMembers(events, IsUpdate);
    GroupMembers(events, IsAddition);
    AddAllStored(removed, Group(events, IsUpdate), ignored, good);
    AddAllStored(AddAll(removed, Group(events, IsUpdate), ignored).state, Group(events, IsAddition), ignored, good);
  }

  /** Over all runs, failing syncs and batches included, every row is as it should be if all that may be saved is. */
  lemma {:induction false} RunsStored(c: Cache, changes: seq<Change>, buffer: int, ignored: seq<Address>,
                                      good: ApiOrder -> bool)
    requires Stored(c, good) && forall change :: change in changes ==> Brings(change, ignored, good)
    ensures Stored(After(c, changes, buffer, ignored), good)
  {
    if changes == [] {
    } else {
      var before, last := After(c, changes[..|changes| - 1], buffer, ignored), changes[|changes| - 1];
      RunsStored(c, changes[..|changes| - 1], buffer, ignored, good);
      assert last in changes;
      match last
      case Sync(a) => FullSyncStored(before, a, buffer, ignored, good);
      case Batch(events) => GroupsStored(before, events, ignored, good);
    }
  }

  /** From a clean table no run ever caches an ignored order, whatever Mesh sends and whatever fails. */
  lemma NeverCachesIgnored(c: Cache, changes: seq<Change>, buffer: int, ignored: seq<Address>)
    requires forall h :: h in c ==> c[h].orderHash == h && MayCache(c[h], ignored)
    ensures forall h :: h in After(c, changes, buffer, ignored) ==>
      After(c, changes, buffer, ignored)[h].orderHash == h && MayCache(After(c, changes, buffer, ignored)[h], ignored)
  {
    RunsStored(c, changes, buffer, ignored, (o: ApiOrder) => MayCache(o, ignored));
  }

  /** An order that can be posted: under its own hash, and within the byte limit of an http chunk. */
  function Postable(client: Client): ApiOrder -> bool {
    (o: ApiOrder) =>
      client.hashOf(o.order) == o.orderHash && client.size(o.order) <= MESH_ORDERS_BATCH_HTTP_BYTE_LENGTH
  }

  /** So a table filled from Mesh's own orders can always be posted again. */
  lemma RunsStayPostable(c: Cache, changes: seq<Change>, buffer: int, ignored: seq<Address>, client: Client)
    requires Stored(c, Postable(client))
    requires forall change :: change in changes ==> Brings(change, ignored, Postable(client))
    ensures Stored(After(c, changes, buffer, ignored), HashedBy(client.hashOf))
    ensures RowsFit(After(c, changes, buffer, ignored), client)
  {
    RunsStored(c, changes, buffer, ignored, Postable(client));
  }

  /** The byte limit matters only where http is used: with an address, and more orders than one small batch. */
  ghost predicate RowsFit(c: Cache, client: Client) {
    client.hasHttp && |c| > MESH_ORDERS_BATCH_SIZE ==>
      forall h :: h in c ==> client.size(c[h].order) <= MESH_ORDERS_BATCH_HTTP_BYTE_LENGTH
  }

  // ---- single writes -----------------------------------------------------------------------

  /** One removal or one saving: between two of them anything else may happen. */
  datatype Write = Removal(orders: seq<ApiOrder>) | Saving(orders: seq<ApiOrder>)

  function ApplyWrite(c: Cache, w: Write, ignored: seq<Address>): Cache {
    match w
    case Removal(orders) => RemoveAll(c, orders)
    case Saving(orders) => AddAll(c, orders, ignored).state
  }

  function AfterWrites(c: Cache, writes: seq<Write>, ignored: seq<Address>): Cache {
    if writes == [] then c
    else ApplyWrite(AfterWrites(c, writes[..|writes| - 1], ignored), writes[|writes| - 1], ignored)
  }

  /** The writes of a full sync and of a batch; a group that throws is the last. */
  function WritesOf(change: Change, buffer: int, ignored: seq<Address>): seq<Write> {
    match change
    case Sync(a) => [Removal(ToRemove(a, buffer)), Saving(FreshOf(ToApiOrders(a.snapshot), a.savedAt, buffer))]
    case Batch(events) =>
      if Allowed(Group(events, IsUpdate), ignored).None?
      then [Removal(Group(events, IsRemoval)), Saving(Group(events, IsUpdate))]
      else [Removal(Group(events, IsRemoval)), Saving(Group(events, IsUpdate)), Saving(Group(events, IsAddition))]
  }

  /** Undisturbed, a change is its writes in turn. */
  lemma ChangeIsItsWrites(c: Cache, change: Change, buffer: int, ignored: seq<Address>)
    ensures Apply(c, change, buffer, ignored) == AfterWrites(c, WritesOf(change, buffer, ignored), ignored)
  {
    var ws := WritesOf(change, buffer, ignored);
    var c1 := ApplyWrite(c, ws[0], ignored);
    var c2 := ApplyWrite(c1, ws[1], ignored);
    assert ws[..1] == [ws[0]] && ws[..2] == [ws[0], ws[1]];
    assert ws[..1][..0] == [] && ws[..2][..1] == ws[..1];
    assert AfterWrites(c, ws[..1], ignored) == c1;
    assert AfterWrites(c, ws[..2], ignored) == c2;
    if |ws| == 2 {
      assert ws[..2] == ws;
    }
  }

  /**
   * Whatever writes follow one another, so however the writes of syncs and batches fall between each
   * other, every row is as it should be if all that may be saved is.
   */
  lemma {:induction false} AnyWritesStored(c: Cache, writes: seq<Write>, ignored: seq<Address>, good: ApiOrder -> bool)
    requires Stored(c, good)
    requires forall w, o :: w in writes && w.Saving? && o in w.orders && MayCache(o, ignored) ==> good(o)
    ensures Stored(AfterWrites(c, writes, ignored), good)
  {
    if writes == [] {
    } else {
      var before, last := AfterWrites(c, writes[..|writes| - 1], ignored), writes[|writes| - 1];
      AnyWritesStored(c, writes[..|writes| - 1], ignored, good);
      assert last in writes;
      if last.Saving? {
        AddAllStored(before, last.orders, ignored, good);
      }
    }
  }

  /** So from a clean table no interleaving of syncs and batches ever caches an ignored order. */
  lemma AnyWritesCacheNothingIgnored(c: Cache, writes: seq<Write>, ignored: seq<Address>)
    requires forall h :: h in c ==> c[h].orderHash == h && MayCache(c[h], ignored)
    ensures forall h :: h in AfterWrites(c, writes, ignored) ==>
      AfterWrites(c, writes, ignored)[h].orderHash == h && MayCache(AfterWrites(c, writes, ignored)[h], ignored)
  {
    AnyWritesStored(c, writes, ignored, (o: ApiOrder) => MayCache(o, ignored));
  }

  // ---- the service -------------------------------------------------------------------------

  const MAX_SQL_VARIABLES := 999

  class OrderWatcherService {
    const ignored: seq<Address>
    const buffer: int
    const client: Client
    var cache: Cache

    constructor (ignored: seq<Address>, buffer: int, client: Client)
      ensures this.ignored == ignored && this.buffer == buffer && this.client == client && cache == map[]
    {
      this.ignored := ignored;
      this.buffer := buffer;
      this.client := client;
      cache := map[];
    }

    /** Deletes in chunks the database can take. */
    method Remove(orders: seq<ApiOrder>)
      modifies this`cache
      ensures cache == RemoveAll(old(cache), orders)
    {
      var chunks := ChunkBy(orders, MAX_SQL_VARIABLES);
      ChunkBySound(orders, MAX_SQL_VARIABLES);
      var i := 0;
      assert old(cache) - HashSet(Flatten(chunks[..0])) == old(cache);
      while i < |chunks|
        invariant 0 <= i <= |chunks|
        invariant cache == RemoveAll(old(cache), Flatten(chunks[..i]))
      {
        assert chunks[..i + 1] == chunks[..i] + [chunks[i]];
        FlattenSnoc(chunks[..i], chunks[i]);
        HashSetAppend(Flatten(chunks[..i]), chunks[i]);
        cache := cache - HashSet(chunks[i]);
        i := i + 1;
      }
      assert chunks[..i] == chunks;
    }

    method Add(orders: seq<ApiOrder>) returns (ok: bool)
      modifies this`cache
      ensures Outcome(cache, ok) == AddAll(old(cache), orders, ignored)
    {
      var allowed := Allowed(orders, ignored);
      if allowed.None? {
        return false;
      }
      ghost var before := cache;
      var i := 0;
      while i < |allowed.value|
        invariant 0 <= i <= |allowed.value|
        invariant cache == SaveAll(before, allowed.value[..i])
      {
        assert allowed.value[..i + 1][..i] == allowed.value[..i];
        cache := cache[allowed.value[i].orderHash := allowed.value[i]];
        i := i + 1;
      }
      assert allowed.value[..i] == allowed.value;
      ok := true;
    }

    method OnOrderEvents(events: seq<Event>) returns (ok: bool)
      modifies this`cache
      ensures Outcome(cache, ok) == ApplyGroups(old(cache), events, ignored)
    {
      var added, removed, updated := CalculateAddedRemovedUpdated(events);
      Remove(removed);
      ok := Add(updated);
      if ok {
        ok := Add(added);
      }
    }

    /**
     * Posts the whole cache to Mesh in two calls, drops what their replies turned down or let expire,
     * and saves what Mesh has. A chunk that fails over the websocket throws before anything changed;
     * over http it turns into rejections.
     */
    method SyncOrderbook(snapshot: seq<OrderInfo>, pinMesh: Mesh, otherMesh: Mesh, makers: seq<Address>,
                         checkedAt: real, savedAt: real)
      returns (ok: bool, ghost pin: seq<Order>, ghost doNotPin: seq<Order>)
      requires RowsFit(cache, client)
      modifies this`cache
      ensures Posted(old(cache), makers, pin, doNotPin) && CanSend(client, pin) && CanSend(client, doNotPin)
      ensures if Returns(client.hasHttp, pin, pinMesh, client.size)
                 && Returns(client.hasHttp, doNotPin, otherMesh, client.size)
              then Outcome(cache, ok)
                   == FullSync(old(cache),
                               AnswersFrom(client, snapshot, pin, pinMesh, doNotPin, otherMesh, checkedAt, savedAt),
                               buffer, ignored)
              else cache == old(cache) && !ok
    {
      var signedOrders := FindAll();
      var pinned, unpinned := SplitOrdersByPinning(signedOrders, makers);
      pin, doNotPin := pinned, unpinned;
      SplitPosted(cache, signedOrders, makers, pinned, unpinned);
      SplitFits(cache, client, makers, pinned, unpinned);
      var pinResults, pinOk := AddOrders(client.hasHttp, pinned, pinMesh, client.hashOf, client.size);
      var otherResults, otherOk := AddOrders(client.hasHttp, unpinned, otherMesh, client.hashOf, client.size);
      if !pinOk || !otherOk {
        return false, pin, doNotPin;
      }
      var accepted := pinResults.accepted + otherResults.accepted;
      var rejected := pinResults.rejected + otherResults.rejected;
      var _, expiredOrders := GroupByFreshness(ToApiOrders(accepted), checkedAt, buffer);
      Remove(expiredOrders + ToApiOrders(rejected));
      var freshOrders, _ := GroupByFreshness(ToApiOrders(snapshot), savedAt, buffer);
      ok := Add(freshOrders);
    }

    /** The rows of the table, in any order. */
    method FindAll() returns (orders: seq<Order>)
      ensures |orders| == |cache| && forall o :: o in orders <==> exists h :: h in cache && cache[h].order == o
    {
      orders := [];
      var left := cache.Keys;
      while left != {}
        invariant left <= cache.Keys && |orders| + |left| == |cache|
        invariant forall o :: o in orders <==> exists h :: h in cache && h !in left && cache[h].order == o
        decreases left
      {
        var h :| h in left;
        left := left - {h};
        orders := orders + [cache[h].order];
      }
    }
  }

  lemma HashSetAppend(a: seq<ApiOrder>, b: seq<ApiOrder>)
    ensures HashSet(a + b) == HashSet(a) + HashSet(b)
  {
    forall h | h in HashSet(a) + HashSet(b) ensures h in HashSet(a + b) {
      var o :| (o in a || o in b) && o.orderHash == h;
      assert o in a + b;
    }
  }

  lemma SplitPosted(c: Cache, all: seq<Order>, makers: seq<Address>, pin: seq<Order>, doNotPin: seq<Order>)
    requires |all| == |c| && forall o :: o in all <==> exists h :: h in c && c[h].order == o
    requires multiset(pin) + multiset(doNotPin) == multiset(all)
    requires forall o :: o in pin ==> o.makerAddress in makers
    requires forall o :: o in doNotPin ==> o.makerAddress !in makers
    ensures Posted(c, makers, pin, doNotPin)
  {
    assert |multiset(pin) + multiset(doNotPin)| == |multiset(all)|;
    forall o ensures o in pin || o in doNotPin <==> o in all {
      assert o in multiset(all) <==> o in multiset(pin) || o in multiset(doNotPin);
    }
  }

  lemma SplitFits(c: Cache, client: Client, makers: seq<Address>, pin: seq<Order>, doNotPin: seq<Order>)
    requires RowsFit(c, client) && Posted(c, makers, pin, doNotPin)
    ensures CanSend(client, pin) && CanSend(client, doNotPin)
  {
    ListFits(c, client, pin);
    ListFits(c, client, doNotPin);
  }

  lemma ListFits(c: Cache, client: Client, orders: seq<Order>)
    requires RowsFit(c, client) && |orders| <= |c|
    requires forall o :: o in orders ==> exists h :: h in c && c[h].order == o
    ensures CanSend(client, orders)
  {
    if !UsesWebsocket(client.hasHttp, orders) {
      forall i | 0 <= i < |orders| ensures client.size(orders[i]) <= MESH_ORDERS_BATCH_HTTP_BYTE_LENGTH {
        assert orders[i] in orders;
      }
    }
  }
}
