/** The websocket server: the two registration maps, its sockets, and order updates. */
module Websocket {
  import opened Wrappers
  import opened Orders
  import opened Subscriptions
  import opened SocketRegistry
  import OrderCache

  class Socket {
    const id: SocketId
    var requestIds: set<RequestId>
    var isAlive: bool
    var terminated: bool

    constructor (id: SocketId)
      ensures this.id == id && requestIds == {} && !terminated
    {
      this.id := id;
      requestIds, isAlive, terminated := {}, false, false;
    }
  }

  datatype Error = MalformedJSON | Invalid | NotImplemented(messageType: string)

  /** A raw message: unreadable, off-schema, or a request. */
  datatype Incoming = NotJson | OffSchema | Request(messageType: string, requestId: RequestId, payload: Option<Filter>)

  datatype Body = Update(requestId: RequestId, payload: set<ApiOrder>) | Failure(error: Error)

  datatype Sent = Sent(to: SocketId, body: Body)

  /** The message that tells the owner of `r` about one order. */
  function Notice(reg: Registry, r: RequestId, o: ApiOrder): Sent
    requires r in reg.sockets
  {
    Sent(reg.sockets[r], Update(r, {o}))
  }

  predicate MatchesUnder(reg: Registry, r: RequestId, o: ApiOrder) {
    r in reg.opts && Matches(o.order, reg.opts[r]) == Some(true)
  }

  /** The message is the notice of `o` to a matching request id. */
  ghost predicate IsNoticeOf(reg: Registry, m: Sent, o: ApiOrder)
    requires Agree(reg)
  {
    && m.body.Update? && MatchesUnder(reg, m.body.requestId, o)
    && m.to == reg.sockets[m.body.requestId] && m.body.payload == {o}
  }

  /** Exactly one notice per order in the list and request id it matches, and no other message. */
  ghost predicate Delivers(reg: Registry, messages: seq<Sent>, orders: seq<ApiOrder>)
    requires Agree(reg)
  {
    && (forall m, o :: IsNoticeOf(reg, m, o) ==> multiset(messages)[m] == multiset(orders)[o])
    && (forall m :: m in messages ==> exists o :: o in orders && IsNoticeOf(reg, m, o))
  }

  lemma DeliversAppend(reg: Registry, sent: seq<Sent>, orders: seq<ApiOrder>, more: seq<Sent>, o: ApiOrder)
    requires Agree(reg) && Delivers(reg, sent, orders) && Delivers(reg, more, [o])
    ensures Delivers(reg, sent + more, orders + [o])
  {
    forall m | m in sent + more ensures exists p :: p in orders + [o] && IsNoticeOf(reg, m, p) {
      if m in sent {
        var p :| p in orders && IsNoticeOf(reg, m, p);
        assert p in orders + [o];
      } else {
        var p :| p in [o] && IsNoticeOf(reg, m, p);
        assert p in orders + [o];
      }
    }
  }

  /** The matching request ids among `ids`. */
  function Matching(reg: Registry, ids: set<RequestId>, o: ApiOrder): set<RequestId> {
    set r | r in ids && MatchesUnder(reg, r, o)
  }

  /** `sent` holds one notice for each of the ids and nothing else. */
  ghost predicate NoticesFor(reg: Registry, sent: seq<Sent>, ids: set<RequestId>, o: ApiOrder)
    requires ids <= reg.sockets.Keys
  {
    && (forall r :: r in reg.sockets ==> multiset(sent)[Notice(reg, r, o)] == if r in ids then 1 else 0)
    && (forall m :: m in sent ==> m.body.Update? && m.body.requestId in ids && m == Notice(reg, m.body.requestId, o))
  }

  lemma NoticesDeliver(reg: Registry, sent: seq<Sent>, o: ApiOrder)
    requires Agree(reg) && NoticesFor(reg, sent, Matching(reg, reg.opts.Keys, o), o)
    ensures Delivers(reg, sent, [o])
  {
    forall m, p | IsNoticeOf(reg, m, p) ensures multiset(sent)[m] == multiset([o])[p] {
      if p == o {
        assert m.body.requestId in Matching(reg, reg.opts.Keys, o);
      } else {
        assert m.body.payload == {p};
        assert o !in m.body.payload;
        assert m !in sent;
      }
    }
    forall m | m in sent ensures exists p :: p in [o] && IsNoticeOf(reg, m, p) {
      assert IsNoticeOf(reg, m, o);
    }
  }

  lemma OneMoreNotice(reg: Registry, sent: seq<Sent>, ids: set<RequestId>, r: RequestId, o: ApiOrder)
    requires ids <= reg.sockets.Keys && r in reg.sockets && r !in ids && NoticesFor(reg, sent, ids, o)
    ensures NoticesFor(reg, sent + [Notice(reg, r, o)], ids + {r}, o)
  {
    var more := sent + [Notice(reg, r, o)];
    forall q | q in reg.sockets ensures multiset(more)[Notice(reg, q, o)] == if q in ids + {r} then 1 else 0 {
      if q != r {
        assert Notice(reg, q, o).body.requestId != Notice(reg, r, o).body.requestId;
      }
    }
  }

  class WebsocketService {
    var requestIdToSocket: map<RequestId, Socket>
    var requestIdToSubscriptionOpts: map<RequestId, SubscriptionOpts>
    /** The server's open connections. */
    var clients: set<Socket>
    /** Everything handed to `send`, in order. */
    var log: seq<Sent>
    /** Every socket that ever connected. */
    ghost var known: set<Socket>

    ghost predicate Valid()
      reads this`requestIdToSocket, this`requestIdToSubscriptionOpts, this`clients, this`known, known`requestIds
    {
      && clients <= known
      && (forall s, t :: s in known && t in known && s.id == t.id ==> s == t)
      && requestIdToSocket.Keys == requestIdToSubscriptionOpts.Keys
      && (forall r :: r in requestIdToSocket ==>
            requestIdToSocket[r] in clients && r in requestIdToSocket[r].requestIds)
    }

    ghost function Listed(): (ids: set<(SocketId, RequestId)>)
      reads this`known, known`requestIds
    {
      set s, r | s in known && r in s.requestIds :: (s.id, r)
    }

    lemma ListedFor(ws: Socket)
      requires Valid() && ws in known
      ensures IdsOf(Listed(), ws.id) == ws.requestIds
    {
      assert forall r :: r in ws.requestIds ==> (ws.id, r) in Listed();
    }

    ghost function Owners(): (m: map<RequestId, SocketId>)
      reads this`requestIdToSocket
    {
      map r | r in requestIdToSocket :: requestIdToSocket[r].id
    }

    ghost function State(): Registry
      reads this`requestIdToSocket, this`requestIdToSubscriptionOpts, this`known, known`requestIds
    {
      Registry(Owners(), requestIdToSubscriptionOpts, Listed())
    }

    constructor ()
      ensures Valid() && fresh(this) && State() == EMPTY && clients == {} && known == {} && log == []
    {
      requestIdToSocket, requestIdToSubscriptionOpts, clients, log, known := map[], map[], {}, [], {};
    }

    method ProcessConnection(ws: Socket)
      requires Valid()
      requires forall s :: s in known ==> s.id != ws.id
      modifies this, ws
      ensures Valid() && known == old(known) + {ws} && clients == old(clients) + {ws} && log == old(log)
      ensures State() == Apply(old(State()), Connect(ws.id))
      ensures ws.isAlive && ws.requestIds == {} && ws.terminated == old(ws.terminated)
    {
      ws.isAlive := true;
      ws.requestIds := {};
      clients, known := clients + {ws}, known + {ws};
    }

    /** The subscribe branch. */
    method Subscribe(ws: Socket, requestId: RequestId, opts: SubscriptionOpts)
      requires Valid() && ws in clients
      modifies this`requestIdToSocket, this`requestIdToSubscriptionOpts, ws`requestIds
      ensures Valid() && State() == Apply(old(State()), SocketRegistry.Subscribe(ws.id, requestId, opts))
    {
      ws.requestIds := ws.requestIds + {requestId};
      requestIdToSubscriptionOpts := requestIdToSubscriptionOpts[requestId := opts];
      requestIdToSocket := requestIdToSocket[requestId := ws];
      assert Owners() == old(Owners())[requestId := ws.id];
      assert Listed() == old(Listed()) + {(ws.id, requestId)};
    }

    /** A message that is not a readable, well-formed subscription changes nothing. */
    method ProcessMessage(ws: Socket, data: Incoming) returns (thrown: Option<Error>)
      requires Valid() && ws in clients
      modifies this`requestIdToSocket, this`requestIdToSubscriptionOpts, ws`requestIds
      ensures Valid()
      ensures data.NotJson? <==> thrown == Some(MalformedJSON)
      ensures data.OffSchema? <==> thrown == Some(Invalid)
      ensures thrown.None? <==> data.Request? && data.messageType == "subscribe"
      ensures thrown.None?
          ==> State() == Apply(old(State()), SocketRegistry.Subscribe(ws.id, data.requestId, OptsOf(data.payload)))
      ensures thrown.Some? ==> State() == old(State())
    {
      match data
      case NotJson => thrown := Some(MalformedJSON);
      case OffSchema => thrown := Some(Invalid);
      case Request(messageType, requestId, payload) =>
        if messageType == "subscribe" {
          Subscribe(ws, requestId, OptsOf(payload));
          thrown := None;
        } else {
          thrown := Some(NotImplemented(messageType));
        }
    }

    /** On an error the client is told and its socket terminated; the close event comes later. */
    method MessageHandler(ws: Socket, data: Incoming)
      requires Valid() && ws in clients
      modifies this, ws
      ensures Valid() && clients == old(clients) && known == old(known) && ws.isAlive == old(ws.isAlive)
      ensures data.Request? && data.messageType == "subscribe" ==>
        && log == old(log) && ws.terminated == old(ws.terminated)
        && State() == Apply(old(State()), SocketRegistry.Subscribe(ws.id, data.requestId, OptsOf(data.payload)))
      ensures !(data.Request? && data.messageType == "subscribe") ==>
        && State() == old(State()) && ws.terminated && |log| == |old(log)| + 1
        && log[..|old(log)|] == old(log) && log[|old(log)|].to == ws.id && log[|old(log)|].body.Failure?
    {
      var thrown := ProcessMessage(ws, data);
      if thrown.Some? {
        log := log + [Sent(ws.id, Failure(thrown.value))];
        ws.terminated := true;
      }
    }

    /** The loop of the close handler. */
    method Unregister(requestIds: set<RequestId>)
      modifies this`requestIdToSocket, this`requestIdToSubscriptionOpts
      ensures requestIdToSocket == old(requestIdToSocket) - requestIds
      ensures requestIdToSubscriptionOpts == old(requestIdToSubscriptionOpts) - requestIds
      ensures Owners() == old(Owners()) - requestIds
    {
      var left := requestIds;
      while left != {}
        invariant left <= requestIds
        invariant requestIdToSocket == old(requestIdToSocket) - (requestIds - left)
        invariant requestIdToSubscriptionOpts == old(requestIdToSubscriptionOpts) - (requestIds - left)
        decreases left
      {
        var requestId :| requestId in left;
        requestIdToSocket := requestIdToSocket - {requestId};
        requestIdToSubscriptionOpts := requestIdToSubscriptionOpts - {requestId};
        left := left - {requestId};
      }
      assert requestIds - left == requestIds;
    }

    /** The close event: the server forgets the connection, then every id the socket has used goes. */
    method CloseHandler(ws: Socket)
      requires Valid() && ws in known
      modifies this`clients, this`requestIdToSocket, this`requestIdToSubscriptionOpts
      ensures Valid() && clients == old(clients) - {ws}
      ensures State() == Apply(old(State()), Close(ws.id))
      ensures forall r :: r in requestIdToSocket ==> requestIdToSocket[r] != ws
    {
      assert IdsOf(Listed(), ws.id) == ws.requestIds by { ListedFor(ws); }
      clients := clients - {ws};
      Unregister(ws.requestIds);
    }

    method PongHandler(ws: Socket)
      requires Valid() && ws in known
      modifies ws`isAlive
      ensures Valid() && State() == old(State()) && ws.isAlive
    {
      ws.isAlive := true;
    }

    /** A client that has not answered since the last round is terminated; the others are asked again. */
    method CleanupConnections()
      requires Valid()
      modifies clients
      ensures Valid() && State() == old(State())
      ensures forall s :: s in clients ==> !s.isAlive && (s.terminated <==> old(s.terminated) || !old(s.isAlive))
    {
      var left := clients;
      while left != {}
        invariant left <= clients
        invariant forall s :: s in known ==> s.requestIds == old(s.requestIds)
        invariant forall s :: s in left ==> s.isAlive == old(s.isAlive) && s.terminated == old(s.terminated)
        invariant forall s :: s in clients - left ==>
          !s.isAlive && (s.terminated <==> old(s.terminated) || !old(s.isAlive))
        decreases left
      {
        var ws :| ws in left;
        if !ws.isAlive {
          ws.terminated := true;
        } else {
          ws.isAlive := false;
        }
        left := left - {ws};
      }
      assert Listed() == old(Listed());
    }

    method Destroy()
      requires Valid()
      modifies this, clients
      ensures Valid() && State() == Apply(old(State()), SocketRegistry.Destroy)
      ensures clients == old(clients) && known == old(known) && log == old(log)
      ensures forall s :: s in clients ==> s.terminated
    {
      var left := clients;
      while left != {}
        invariant left <= clients == old(clients) && known == old(known) && log == old(log)
        invariant requestIdToSocket == old(requestIdToSocket)
            && requestIdToSubscriptionOpts == old(requestIdToSubscriptionOpts)
        invariant forall s :: s in known ==> s.requestIds == old(s.requestIds)
        invariant forall s :: s in clients - left ==> s.terminated
        decreases left
      {
        var ws :| ws in left;
        ws.terminated := true;
        left := left - {ws};
      }
      requestIdToSocket, requestIdToSubscriptionOpts := map[], map[];
      assert Listed() == old(Listed());
    }

    /** The matching ids of one order, each with its set of orders; `None` if the matching throws. */
    method CollectMatches(o: ApiOrder, ghost reg: Registry)
      returns (requestIdToOrders: Option<map<RequestId, set<ApiOrder>>>)
      requires Valid() && reg == State()
      ensures requestIdToOrders.Some? <==> forall r :: r in reg.opts ==> Matches(o.order, reg.opts[r]).Some?
      ensures requestIdToOrders.Some? ==> requestIdToOrders.value == map r | r in Matching(reg, reg.opts.Keys, o) :: {o}
    {
      var found: map<RequestId, set<ApiOrder>> := map[];
      var left := requestIdToSubscriptionOpts.Keys;
      while left != {}
        invariant left <= reg.opts.Keys
        invariant forall r :: r in reg.opts && r !in left ==> Matches(o.order, reg.opts[r]).Some?
        invariant found == map r | r in Matching(reg, reg.opts.Keys - left, o) :: {o}
        decreases left
      {
        var requestId :| requestId in left;
        var matches := Matches(o.order, requestIdToSubscriptionOpts[requestId]);
        if matches.None? {
          return None;
        }
        if matches.value {
          // Every id is met once, so its set is always new.
          found := found[requestId := {o}];
        }
        left := left - {requestId};
      }
      assert reg.opts.Keys - left == reg.opts.Keys;
      return Some(found);
    }

    /** The sending loop: every id's socket gets the id's orders. */
    method SendNotices(o: ApiOrder, requestIdToOrders: map<RequestId, set<ApiOrder>>, ghost reg: Registry)
      returns (ghost sent: seq<Sent>)
      requires reg.sockets == Owners() && requestIdToOrders.Keys <= reg.sockets.Keys
      requires forall r :: r in requestIdToOrders ==> requestIdToOrders[r] == {o}
      modifies this`log
      ensures log == old(log) + sent && NoticesFor(reg, sent, requestIdToOrders.Keys, o)
    {
      sent := [];
      ghost var done := {};
      var left := requestIdToOrders.Keys;
      while left != {}
        invariant log == old(log) + sent && done !! left && done + left == requestIdToOrders.Keys
        invariant NoticesFor(reg, sent, done, o)
        decreases left
      {
        var requestId :| requestId in left;
        OneMoreNotice(reg, sent, done, requestId, o);
        if requestId in requestIdToSocket {
          log := log + [Sent(requestIdToSocket[requestId].id, Update(requestId, requestIdToOrders[requestId]))];
        }
        sent, done := sent + [Notice(reg, requestId, o)], done + {requestId};
        left := left - {requestId};
      }
    }

    /** One order: collect the matching ids, then send. A throwing match sends nothing for this order. */
    method NotifyOne(o: ApiOrder, ghost reg: Registry) returns (ok: bool, ghost sent: seq<Sent>)
      requires Valid() && reg == State() && Agree(reg)
      modifies this`log
      ensures log == old(log) + sent
      ensures if ok then Delivers(reg, sent, [o]) else sent == []
      ensures ok <==> forall r :: r in reg.opts ==> Matches(o.order, reg.opts[r]).Some?
    {
      sent := [];
      var requestIdToOrders := CollectMatches(o, reg);
      ok := requestIdToOrders.Some?;
      if ok {
        sent := SendNotices(o, requestIdToOrders.value, reg);
        NoticesDeliver(reg, sent, o);
      }
    }

    /** The orders in turn, up to one whose matching throws. */
    method NotifyAll(orders: seq<ApiOrder>, ghost reg: Registry) returns (ok: bool, ghost sent: seq<Sent>)
      requires Valid() && reg == State() && Agree(reg)
      modifies this`log
      ensures log == old(log) + sent
      ensures if ok then Delivers(reg, sent, orders) else exists n :: StopsAt(reg, sent, orders, n)
    {
      sent := [];
      var i := 0;
      while i < |orders|
        invariant 0 <= i <= |orders|
        invariant log == old(log) + sent && Delivers(reg, sent, orders[..i])
      {
        var notified, more := NotifyOne(orders[i], reg);
        if !notified {
          assert StopsAt(reg, sent, orders, i);
          return false, sent;
        }
        DeliversAppend(reg, sent, orders[..i], more, orders[i]);
        assert orders[..i + 1] == orders[..i] + [orders[i]];
        sent := sent + more;
        i := i + 1;
      }
      assert orders[..i] == orders;
      ok := true;
    }

    /**
     * With nobody connected, nothing. Otherwise one message per non-ignored order and matching request
     * id; an order that makes the matching throw cuts the rest off.
     */
    method OrderUpdate(apiOrders: seq<ApiOrder>, ignored: seq<Address>) returns (ok: bool, ghost sent: seq<Sent>)
      requires Valid()
      modifies this`log
      ensures Agree(State()) && log == old(log) + sent
      ensures clients == {} ==> ok && sent == []
      ensures clients != {} ==> UpdateOutcome(State(), sent, OrderCache.Allowed(apiOrders, ignored), ok)
    {
      sent := [];
      if clients == {} {
        return true, [];
      }
      var allowed := OrderCache.Allowed(apiOrders, ignored);
      if allowed.None? {
        return false, [];
      }
      ok, sent := NotifyAll(allowed.value, State());
    }
  }

  /** All allowed orders delivered, or none could be, or those before the first that does not decode. */
  ghost predicate UpdateOutcome(reg: Registry, sent: seq<Sent>, allowed: Option<seq<ApiOrder>>, ok: bool)
    requires Agree(reg)
  {
    if allowed.None? then !ok && sent == []
    else if ok then Delivers(reg, sent, allowed.value)
    else exists n :: StopsAt(reg, sent, allowed.value, n)
  }

  /** Order `n` does not decode for some subscription; the orders before it were delivered in full. */
  ghost predicate StopsAt(reg: Registry, messages: seq<Sent>, orders: seq<ApiOrder>, n: nat)
    requires Agree(reg)
  {
    && n < |orders| && Delivers(reg, messages, orders[..n])
    && exists r :: r in reg.opts && Matches(orders[n].order, reg.opts[r]).None?
  }

  /** When every order decodes, the update goes through and reaches everyone it concerns once. */
  lemma DecodableOrdersAreDelivered(reg: Registry, sent: seq<Sent>, apiOrders: seq<ApiOrder>, ignored: seq<Address>,
                                    ok: bool)
    requires Agree(reg) && UpdateOutcome(reg, sent, OrderCache.Allowed(apiOrders, ignored), ok)
    requires forall o :: o in apiOrders ==> Decodable(o.order.makerAssetData) && Decodable(o.order.takerAssetData)
    ensures ok && OrderCache.Allowed(apiOrders, ignored).Some?
    ensures Delivers(reg, sent, OrderCache.Allowed(apiOrders, ignored).value)
  {
    OrderCache.AllowedExactly(apiOrders, ignored);
    forall o | o in apiOrders ensures IsIgnoredOrder(ignored, o.order).Some? {
      DecodableIgnored(ignored, o.order);
    }
    var allowed := OrderCache.Allowed(apiOrders, ignored).value;
    if !ok {
      var n: nat :| StopsAt(reg, sent, allowed, n);
      assert allowed[n] in apiOrders;
      forall r | r in reg.opts ensures Matches(allowed[n].order, reg.opts[r]).Some? {
        MatchesExactly(allowed[n].order, reg.opts[r]);
      }
      assert false;
    }
  }
}
