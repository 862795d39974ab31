/** Orders as the API sees them, the asset data inside them, and the filters over both. */
module Orders {
  import opened Wrappers

  type Hash = string
  type Address = string

  datatype TokenKind = ERC20 | ERC721 | ERC1155

  /** Decoded asset data; decoding `Malformed` throws. */
  datatype AssetData =
    | Token(kind: TokenKind, tokenAddress: Address)
    | Bridge(bridged: Address)
    | StaticCall(callData: string)
    | MultiAsset(nested: seq<AssetData>)
    | Malformed(raw: string)

  datatype Order = Order(
    makerAddress: Address,
    makerAssetData: AssetData,
    takerAssetData: AssetData,
    makerAssetAmount: nat,
    takerAssetAmount: nat,
    takerFee: nat,
    expirationTimeSeconds: nat,
    salt: nat)

  datatype ApiOrder = ApiOrder(order: Order, orderHash: Hash, remaining: nat)

  /** What Mesh says about an order; a missing amount means nothing is fillable. */
  datatype OrderInfo = OrderInfo(orderHash: Hash, order: Order, fillable: Option<nat>)

  function ToApiOrder(info: OrderInfo): ApiOrder {
    ApiOrder(info.order, info.orderHash, if info.fillable.Some? then info.fillable.value else 0)
  }

  function ToApiOrders(infos: seq<OrderInfo>): (orders: seq<ApiOrder>)
    ensures |orders| == |infos|
    ensures forall i :: 0 <= i < |infos| ==> orders[i] == ToApiOrder(infos[i])
  {
    seq(|infos|, i requires 0 <= i < |infos| => ToApiOrder(infos[i]))
  }

  // ---- ignored orders ----------------------------------------------------------------------

  /** `includesTokenAddresses`; `None` is the decoder's exception. */
  function IncludesTokenAddresses(data: AssetData, addresses: seq<Address>): Option<bool>
    decreases data, 1, 0
  {
    match data
    case Malformed(_) => None
    case MultiAsset(nested) => AnyIncludes(data, nested, addresses)
    case Token(_, tokenAddress) => Some(tokenAddress in addresses)
    case _ => Some(false)
  }

  /** The loop over nested data stops at the first hit. */
  function AnyIncludes(whole: AssetData, nested: seq<AssetData>, addresses: seq<Address>): Option<bool>
    requires forall i :: 0 <= i < |nested| ==> nested[i] < whole
    decreases whole, 0, |nested|
  {
    if nested == [] then Some(false)
    else
      var first := IncludesTokenAddresses(nested[0], addresses);
      if first == Some(false) then AnyIncludes(whole, nested[1..], addresses) else first
  }

  predicate Decodable(data: AssetData) {
    match data
    case Malformed(_) => false
    case MultiAsset(nested) => forall d :: d in nested ==> Decodable(d)
    case _ => true
  }

  /** A token at any depth of the data, outside bridges and static calls. */
  predicate Mentions(data: AssetData, address: Address) {
    match data
    case Token(_, tokenAddress) => tokenAddress == address
    case MultiAsset(nested) => exists d :: d in nested && Mentions(d, address)
    case _ => false
  }

  lemma {:induction false} DecodableIncludes(data: AssetData, addresses: seq<Address>)
    requires Decodable(data)
    ensures IncludesTokenAddresses(data, addresses) == Some(exists a :: a in addresses && Mentions(data, a))
    decreases data, 1, 0
  {
    if data.MultiAsset? {
      AnyDecodableIncludes(data, data.nested, addresses);
    }
  }

  lemma {:induction false} AnyDecodableIncludes(whole: AssetData, nested: seq<AssetData>, addresses: seq<Address>)
    requires forall i :: 0 <= i < |nested| ==> nested[i] < whole && Decodable(nested[i])
    ensures AnyIncludes(whole, nested, addresses)
         == Some(exists a, d :: a in addresses && d in nested && Mentions(d, a))
    decreases whole, 0, |nested|
  {
    if nested == [] {
    } else {
      DecodableIncludes(nested[0], addresses);
      AnyDecodableIncludes(whole, nested[1..], addresses);
      assert forall d :: d in nested <==> d == nested[0] || d in nested[1..];
    }
  }

  function Or(a: Option<bool>, b: Option<bool>): Option<bool> {
    if a == Some(false) then b else a
  }

  function IsIgnoredOrder(addressesToIgnore: seq<Address>, o: Order): Option<bool> {
    Or(Some(o.makerAddress in addressesToIgnore),
       Or(IncludesTokenAddresses(o.makerAssetData, addressesToIgnore),
          IncludesTokenAddresses(o.takerAssetData, addressesToIgnore)))
  }

  /** An order is ignored exactly when its maker, or a token on either side, is on the list. */
  lemma DecodableIgnored(addressesToIgnore: seq<Address>, o: Order)
    requires Decodable(o.makerAssetData) && Decodable(o.takerAssetData)
    ensures IsIgnoredOrder(addressesToIgnore, o)
         == Some(exists a :: a in addressesToIgnore &&
                   (a == o.makerAddress || Mentions(o.makerAssetData, a) || Mentions(o.takerAssetData, a)))
  {
    DecodableIncludes(o.makerAssetData, addressesToIgnore);
    DecodableIncludes(o.takerAssetData, addressesToIgnore);
  }

  // ---- data that does not decode -----------------------------------------------------------

  /** The single assets in the order the search meets them. */
  function Leaves(data: AssetData): (leaves: seq<AssetData>)
    decreases data, 1, 0
  {
    if data.MultiAsset? then LeavesOf(data, data.nested) else [data]
  }

  function LeavesOf(whole: AssetData, nested: seq<AssetData>): (leaves: seq<AssetData>)
    requires forall i :: 0 <= i < |nested| ==> nested[i] < whole
    decreases whole, 0, |nested|
  {
    if nested == [] then [] else Leaves(nested[0]) + LeavesOf(whole, nested[1..])
  }

  predicate Hit(leaf: AssetData, addresses: seq<Address>) {
    leaf.Token? && leaf.tokenAddress in addresses
  }

  /** Stops at the first hit, and throws at the first asset that does not decode. */
  function Scan(leaves: seq<AssetData>, addresses: seq<Address>): Option<bool> {
    if leaves == [] then Some(false)
    else if leaves[0].Malformed? then None
    else if Hit(leaves[0], addresses) then Some(true)
    else Scan(leaves[1..], addresses)
  }

  lemma {:induction false} ScanAppend(a: seq<AssetData>, b: seq<AssetData>, addresses: seq<Address>)
    ensures Scan(a + b, addresses) == Or(Scan(a, addresses), Scan(b, addresses))
  {
    if a == [] {
      assert a + b == b;
    } else {
      assert (a + b)[1..] == a[1..] + b;
      ScanAppend(a[1..], b, addresses);
    }
  }

  lemma {:induction false} IncludesScans(data: AssetData, addresses: seq<Address>)
    ensures IncludesTokenAddresses(data, addresses) == Scan(Leaves(data), addresses)
    decreases data, 1, 0
  {
    if data.MultiAsset? {
      AnyIncludesScans(data, data.nested, addresses);
    }
  }

  lemma {:induction false} AnyIncludesScans(whole: AssetData, nested: seq<AssetData>, addresses: seq<Address>)
    requires forall i :: 0 <= i < |nested| ==> nested[i] < whole
    ensures AnyIncludes(whole, nested, addresses) == Scan(LeavesOf(whole, nested), addresses)
    decreases whole, 0, |nested|
  {
    if nested == [] {
    } else {
      IncludesScans(nested[0], addresses);
      AnyIncludesScans(whole, nested[1..], addresses);
      ScanAppend(Leaves(nested[0]), LeavesOf(whole, nested[1..]), addresses);
    }
  }

  /** A hit before anything that does not decode. */
  ghost predicate HitsFirst(leaves: seq<AssetData>, addresses: seq<Address>) {
    exists i :: 0 <= i < |leaves| && Hit(leaves[i], addresses) && forall j :: 0 <= j < i ==> !leaves[j].Malformed?
  }

  /** Something that does not decode before any hit. */
  ghost predicate FailsFirst(leaves: seq<AssetData>, addresses: seq<Address>) {
    exists i :: 0 <= i < |leaves| && leaves[i].Malformed? && forall j :: 0 <= j < i ==> !Hit(leaves[j], addresses)
  }

  lemma {:induction false} ScanExactly(leaves: seq<AssetData>, addresses: seq<Address>)
    ensures Scan(leaves, addresses) == Some(true) <==> HitsFirst(leaves, addresses)
    ensures Scan(leaves, addresses).None? <==> FailsFirst(leaves, addresses)
  {
    if leaves == [] {
    } else if leaves[0].Malformed? || Hit(leaves[0], addresses) {
    } else {
      ScanExactly(leaves[1..], addresses);
      HitsFirstTail(leaves, addresses);
      FailsFirstTail(leaves, addresses);
    }
  }

  lemma HitsFirstTail(leaves: seq<AssetData>, addresses: seq<Address>)
    requires leaves != [] && !leaves[0].Malformed? && !Hit(leaves[0], addresses)
    ensures HitsFirst(leaves, addresses) <==> HitsFirst(leaves[1..], addresses)
  {
    var rest := leaves[1..];
    if HitsFirst(rest, addresses) {
      var i :| 0 <= i < |rest| && Hit(rest[i], addresses) && forall j :: 0 <= j < i ==> !rest[j].Malformed?;
      assert Hit(leaves[i + 1], addresses) && forall j :: 0 < j < i + 1 ==> leaves[j] == rest[j - 1];
    }
    if HitsFirst(leaves, addresses) {
      var i :| 0 <= i < |leaves| && Hit(leaves[i], addresses) && forall j :: 0 <= j < i ==> !leaves[j].Malformed?;
      assert Hit(rest[i - 1], addresses) && forall j :: 0 <= j < i - 1 ==> rest[j] == leaves[j + 1];
    }
  }

  lemma FailsFirstTail(leaves: seq<AssetData>, addresses: seq<Address>)
    requires leaves != [] && !leaves[0].Malformed? && !Hit(leaves[0], addresses)
    ensures FailsFirst(leaves, addresses) <==> FailsFirst(leaves[1..], addresses)
  {
    var rest := leaves[1..];
    if FailsFirst(rest, addresses) {
      var i :| 0 <= i < |rest| && rest[i].Malformed? && forall j :: 0 <= j < i ==> !Hit(rest[j], addresses);
      assert leaves[i + 1].Malformed? && forall j :: 0 < j < i + 1 ==> leaves[j] == rest[j - 1];
    }
    if FailsFirst(leaves, addresses) {
      var i :| 0 <= i < |leaves| && leaves[i].Malformed? && forall j :: 0 <= j < i ==> !Hit(leaves[j], addresses);
      assert rest[i - 1].Malformed? && forall j :: 0 <= j < i - 1 ==> rest[j] == leaves[j + 1];
    }
  }

  /**
   * On any data: yes exactly if a listed token comes before anything malformed, an exception exactly
   * the other way round.
   */
  lemma IncludesExactly(data: AssetData, addresses: seq<Address>)
    ensures IncludesTokenAddresses(data, addresses) == Some(true) <==> HitsFirst(Leaves(data), addresses)
    ensures IncludesTokenAddresses(data, addresses).None? <==> FailsFirst(Leaves(data), addresses)
  {
    IncludesScans(data, addresses);
    ScanExactly(Leaves(data), addresses);
  }

  /** On any order: a listed maker is enough; otherwise both sides are searched as one list, the maker's first. */
  lemma IgnoredExactly(addressesToIgnore: seq<Address>, o: Order)
    ensures IsIgnoredOrder(addressesToIgnore, o) == Some(true) <==>
      || o.makerAddress in addressesToIgnore
      || HitsFirst(Leaves(o.makerAssetData) + Leaves(o.takerAssetData), addressesToIgnore)
    ensures IsIgnoredOrder(addressesToIgnore, o).None? <==>
      && o.makerAddress !in addressesToIgnore
      && FailsFirst(Leaves(o.makerAssetData) + Leaves(o.takerAssetData), addressesToIgnore)
  {
    IncludesScans(o.makerAssetData, addressesToIgnore);
    IncludesScans(o.takerAssetData, addressesToIgnore);
    ScanAppend(Leaves(o.makerAssetData), Leaves(o.takerAssetData), addressesToIgnore);
    ScanExactly(Leaves(o.makerAssetData) + Leaves(o.takerAssetData), addressesToIgnore);
  }

  // ---- freshness ---------------------------------------------------------------------------

  /** `now` is the clock in seconds, fractions included. */
  predicate IsFreshOrder(o: Order, now: real, buffer: int) {
    o.expirationTimeSeconds as real > now + buffer as real
  }

  function FreshOf(orders: seq<ApiOrder>, now: real, buffer: int): seq<ApiOrder> {
    if orders == [] then []
    else
      var last := orders[|orders| - 1];
      var before := FreshOf(orders[..|orders| - 1], now, buffer);
      if IsFreshOrder(last.order, now, buffer) then before + [last] else before
  }

  function ExpiredOf(orders: seq<ApiOrder>, now: real, buffer: int): seq<ApiOrder> {
    if orders == [] then []
    else
      var last := orders[|orders| - 1];
      var before := ExpiredOf(orders[..|orders| - 1], now, buffer);
      if IsFreshOrder(last.order, now, buffer) then before else before + [last]
  }

  /** The expiry decides: a fresh order expires later than the buffer after now, any other is expired. */
  lemma {:induction false} FreshMembers(orders: seq<ApiOrder>, now: real, buffer: int, o: ApiOrder)
    ensures o in FreshOf(orders, now, buffer) <==>
      o in orders && o.order.expirationTimeSeconds as real > now + buffer as real
    ensures o in ExpiredOf(orders, now, buffer) <==>
      o in orders && o.order.expirationTimeSeconds as real <= now + buffer as real
  {
    if orders == [] {
    } else {
      FreshMembers(orders[..|orders| - 1], now, buffer, o);
      assert orders == orders[..|orders| - 1] + [orders[|orders| - 1]];
    }
  }

  lemma {:induction false} FreshAndExpired(orders: seq<ApiOrder>, now: real, buffer: int)
    ensures multiset(FreshOf(orders, now, buffer)) + multiset(ExpiredOf(orders, now, buffer)) == multiset(orders)
  {
    if orders == [] {
    } else {
      FreshAndExpired(orders[..|orders| - 1], now, buffer);
      assert orders == orders[..|orders| - 1] + [orders[|orders| - 1]];
    }
  }

  /** Every order is on exactly one of the two lists. */
  lemma FreshOrExpired(orders: seq<ApiOrder>, now: real, buffer: int)
    ensures multiset(FreshOf(orders, now, buffer)) + multiset(ExpiredOf(orders, now, buffer)) == multiset(orders)
    ensures forall o :: o in FreshOf(orders, now, buffer) <==> o in orders && IsFreshOrder(o.order, now, buffer)
    ensures forall o :: o in ExpiredOf(orders, now, buffer) <==> o in orders && !IsFreshOrder(o.order, now, buffer)
  {
    FreshAndExpired(orders, now, buffer);
    forall o
      ensures o in FreshOf(orders, now, buffer) <==> o in orders && IsFreshOrder(o.order, now, buffer)
      ensures o in ExpiredOf(orders, now, buffer) <==> o in orders && !IsFreshOrder(o.order, now, buffer)
    {
      FreshMembers(orders, now, buffer, o);
    }
  }

  method GroupByFreshness(orders: seq<ApiOrder>, now: real, buffer: int)
    returns (freshOrders: seq<ApiOrder>, expiredOrders: seq<ApiOrder>)
    ensures freshOrders == FreshOf(orders, now, buffer) && expiredOrders == ExpiredOf(orders, now, buffer)
  {
    freshOrders, expiredOrders := [], [];
    var i := 0;
    while i < |orders|
      invariant 0 <= i <= |orders|
      invariant freshOrders == FreshOf(orders[..i], now, buffer) && expiredOrders == ExpiredOf(orders[..i], now, buffer)
    {
      assert orders[..i + 1][..i] == orders[..i];
      if IsFreshOrder(orders[i].order, now, buffer) {
        freshOrders := freshOrders + [orders[i]];
      } else {
        expiredOrders := expiredOrders + [orders[i]];
      }
      i := i + 1;
    }
    assert orders[..i] == orders;
  }

  // ---- pinning -----------------------------------------------------------------------------

  datatype PoolStats = PoolStats(poolId: string, makerAddresses: seq<Address>)

  function PinnedMakers(stats: seq<PoolStats>, pinnedPools: seq<string>,
                        pinnedMakers: seq<Address>): (makers: seq<Address>)
    ensures forall a :: a in makers <==>
      a in pinnedMakers || exists s :: s in stats && s.poolId in pinnedPools && a in s.makerAddresses
  {
    if stats == [] then pinnedMakers
    else
      var last := stats[|stats| - 1];
      assert stats == stats[..|stats| - 1] + [last];
      var before := PinnedMakers(stats[..|stats| - 1], pinnedPools, pinnedMakers);
      if last.poolId in pinnedPools then before + last.makerAddresses else before
  }

  /** Every order goes to exactly one of the two lists, by its maker. */
  method SplitOrdersByPinning(orders: seq<Order>, makers: seq<Address>) returns (pin: seq<Order>, doNotPin: seq<Order>)
    ensures multiset(pin) + multiset(doNotPin) == multiset(orders)
    ensures forall o :: o in pin ==> o.makerAddress in makers
    ensures forall o :: o in doNotPin ==> o.makerAddress !in makers
  {
    pin, doNotPin := [], [];
    var i := 0;
    while i < |orders|
      invariant 0 <= i <= |orders|
      invariant multiset(pin) + multiset(doNotPin) == multiset(orders[..i])
      invariant forall o :: o in pin ==> o.makerAddress in makers
      invariant forall o :: o in doNotPin ==> o.makerAddress !in makers
    {
      assert orders[..i + 1] == orders[..i] + [orders[i]];
      if orders[i].makerAddress in makers {
        pin := pin + [orders[i]];
      } else {
        doNotPin := doNotPin + [orders[i]];
      }
      i := i + 1;
    }
    assert orders[..i] == orders;
  }
}
