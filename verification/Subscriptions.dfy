/** What a websocket client may ask for, and which orders match. */
module Subscriptions {
  import opened Wrappers
  import opened Orders

  /** The payload of a subscribe message. Fields the matching does not read only make it non-empty. */
  datatype Filter = Filter(
    traderAssetData: Option<AssetData>,
    makerAssetData: Option<AssetData>,
    takerAssetData: Option<AssetData>,
    makerAssetAddress: Option<Address>,
    takerAssetAddress: Option<Address>,
    hasOtherFields: bool)

  predicate IsEmpty(p: Filter) {
    p == Filter(None, None, None, None, None, false)
  }

  datatype SubscriptionOpts = AllOrders | Only(filter: Filter)

  function OptsOf(payload: Option<Filter>): SubscriptionOpts {
    if payload.None? || IsEmpty(payload.value) then AllOrders else Only(payload.value)
  }

  // ---- decoding ----------------------------------------------------------------------------

  /** The asset data and the token addresses met while decoding, outermost first. */
  datatype Item = Data(data: AssetData) | Contract(address: Address)

  /** `None` is the decoder's exception. */
  function DecodedData(data: AssetData): Option<seq<Item>>
    decreases data, 1, 0
  {
    match data
    case Malformed(_) => None
    case MultiAsset(nested) => DecodedNested(data, nested, [Data(data)])
    case StaticCall(_) => Some([Data(data)])
    case Token(_, tokenAddress) => Some([Data(data), Contract(tokenAddress)])
    case Bridge(bridged) => Some([Data(data), Contract(bridged)])
  }

  function DecodedNested(whole: AssetData, nested: seq<AssetData>, acc: seq<Item>): Option<seq<Item>>
    requires forall i :: 0 <= i < |nested| ==> nested[i] < whole
    decreases whole, 0, |nested|
  {
    if nested == [] then Some(acc)
    else
      var first := DecodedData(nested[0]);
      if first.None? then None else DecodedNested(whole, nested[1..], acc + first.value)
  }

  /** Decoding succeeds exactly on well-formed data, however deep. */
  lemma {:induction false} DecodesExactly(data: AssetData)
    ensures DecodedData(data).Some? <==> Decodable(data)
    decreases data, 1, 0
  {
    if data.MultiAsset? {
      NestedDecodesExactly(data, data.nested, [Data(data)]);
    }
  }

  lemma {:induction false} NestedDecodesExactly(whole: AssetData, nested: seq<AssetData>, acc: seq<Item>)
    requires forall i :: 0 <= i < |nested| ==> nested[i] < whole
    ensures DecodedNested(whole, nested, acc).Some? <==> forall d :: d in nested ==> Decodable(d)
    decreases whole, 0, |nested|
  {
    if nested == [] {
    } else {
      DecodesExactly(nested[0]);
      assert forall d :: d in nested <==> d == nested[0] || d in nested[1..];
      if DecodedData(nested[0]).Some? {
        NestedDecodesExactly(whole, nested[1..], acc + DecodedData(nested[0]).value);
      }
    }
  }

  // ---- matching ----------------------------------------------------------------------------

  predicate Single(data: AssetData) {
    !data.MultiAsset? && !data.StaticCall?
  }

  /** `_matchesOrdersChannelSubscription`: three tests in order; only the last one decodes. */
  function Matches(o: Order, opts: SubscriptionOpts): Option<bool> {
    match opts
    case AllOrders => Some(true)
    case Only(f) =>
      var sides := [o.makerAssetData, o.takerAssetData];
      if f.traderAssetData.Some? && f.traderAssetData.value in sides then Some(true)
      else if f.makerAssetData.Some? && f.takerAssetData.Some?
              && f.makerAssetData.value in sides && f.takerAssetData.value in sides then Some(true)
      else
        var maker := DecodedData(o.makerAssetData);
        if maker.None? then None
        else
          var taker := DecodedData(o.takerAssetData);
          if taker.None? then None
          else Some(
            && f.makerAssetAddress.Some? && f.takerAssetAddress.Some?
            && Single(o.makerAssetData) && Single(o.takerAssetData)
            && Contract(f.makerAssetAddress.value) in maker.value
            && Contract(f.takerAssetAddress.value) in taker.value)
  }

  /** The contract of a single token or of the token a bridge draws on. */
  predicate IsTokenAt(data: AssetData, address: Address) {
    (data.Token? && data.tokenAddress == address) || (data.Bridge? && data.bridged == address)
  }

  /** An asset data on either side, both of two asset data on any side, or the two token contracts each on its side. */
  ghost predicate Wanted(o: Order, opts: SubscriptionOpts) {
    || opts.AllOrders?
    || (exists d :: opts.filter.traderAssetData == Some(d) && d in {o.makerAssetData, o.takerAssetData})
    || (exists d, e :: opts.filter.makerAssetData == Some(d) && opts.filter.takerAssetData == Some(e)
                       && {d, e} <= {o.makerAssetData, o.takerAssetData})
    || (exists a, b :: opts.filter.makerAssetAddress == Some(a) && opts.filter.takerAssetAddress == Some(b)
                       && IsTokenAt(o.makerAssetData, a) && IsTokenAt(o.takerAssetData, b))
  }

  /** On decodable orders the tests decide exactly what the client asked for. */
  lemma MatchesExactly(o: Order, opts: SubscriptionOpts)
    requires Decodable(o.makerAssetData) && Decodable(o.takerAssetData)
    ensures Matches(o, opts) == Some(Wanted(o, opts))
  {
    DecodesExactly(o.makerAssetData);
    DecodesExactly(o.takerAssetData);
    if opts.Only? {
      forall d: AssetData, a | Single(d) && DecodedData(d).Some?
        ensures Contract(a) in DecodedData(d).value <==> IsTokenAt(d, a)
      {
      }
    }
  }

  /** Where the matching throws: nothing earlier matched and one side does not decode. */
  lemma ThrowsExactly(o: Order, opts: SubscriptionOpts)
    ensures Matches(o, opts).None? <==>
      !Wanted(o, opts) && !(Decodable(o.makerAssetData) && Decodable(o.takerAssetData))
  {
    DecodesExactly(o.makerAssetData);
    DecodesExactly(o.takerAssetData);
    if Decodable(o.makerAssetData) && Decodable(o.takerAssetData) {
      MatchesExactly(o, opts);
    }
  }

  /**
   * In terms of the payload a client sends: without one, or with one that has no field at all, every
   * order is wanted; otherwise exactly the orders its fields ask for.
   */
  lemma PayloadsDecide(o: Order, payload: Option<Filter>)
    requires Decodable(o.makerAssetData) && Decodable(o.takerAssetData)
    ensures Matches(o, OptsOf(payload)) == Some(
      || payload.None?
      || (var f := payload.value;
          || (&& f.traderAssetData.None? && f.makerAssetData.None? && f.takerAssetData.None?
              && f.makerAssetAddress.None? && f.takerAssetAddress.None? && !f.hasOtherFields)
          || (f.traderAssetData.Some? && f.traderAssetData.value in {o.makerAssetData, o.takerAssetData})
          || (f.makerAssetData.Some? && f.takerAssetData.Some?
              && {f.makerAssetData.value, f.takerAssetData.value} <= {o.makerAssetData, o.takerAssetData})
          || (f.makerAssetAddress.Some? && f.takerAssetAddress.Some?
              && IsTokenAt(o.makerAssetData, f.makerAssetAddress.value)
              && IsTokenAt(o.takerAssetData, f.takerAssetAddress.value))))
  {
    MatchesExactly(o, OptsOf(payload));
  }
}
