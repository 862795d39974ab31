/** The two-sided order book: comparators, the freshness filter, and pages. */
module OrderBook {
  import opened Orders
  import opened Sorting
  import opened Chunking
  import opened Filtering

  /** Prices are quotients of amounts, so orders on the book have both. */
  type BookOrder = o: ApiOrder | o.order.makerAssetAmount > 0 && o.order.takerAssetAmount > 0
    witness ApiOrder(Order("", StaticCall(""), StaticCall(""), 1, 1, 0, 0, 0), "", 0)

  // ---- comparators -------------------------------------------------------------------------

  /** BigNumber's `comparedTo`. */
  function ComparedTo(a: real, b: real): int {
    if a < b then -1 else if a > b then 1 else 0
  }

  function AskPrice(o: BookOrder): real {
    o.order.takerAssetAmount as real / o.order.makerAssetAmount as real
  }

  function BidPrice(o: BookOrder): real {
    o.order.makerAssetAmount as real / o.order.takerAssetAmount as real
  }

  function FeeRatio(o: BookOrder): real {
    o.order.takerFee as real / o.order.takerAssetAmount as real
  }

  function CompareOrderByFeeRatio(a: BookOrder, b: BookOrder): int {
    if FeeRatio(a) != FeeRatio(b) then ComparedTo(FeeRatio(b), FeeRatio(a))
    else ComparedTo(a.order.expirationTimeSeconds as real, b.order.expirationTimeSeconds as real)
  }

  function CompareAskOrder(a: BookOrder, b: BookOrder): int {
    if AskPrice(a) != AskPrice(b) then ComparedTo(AskPrice(a), AskPrice(b))
    else CompareOrderByFeeRatio(a, b)
  }

  function CompareBidOrder(a: BookOrder, b: BookOrder): int {
    if BidPrice(a) != BidPrice(b) then ComparedTo(BidPrice(b), BidPrice(a))
    else CompareOrderByFeeRatio(a, b)
  }

  datatype BookSide = Bids | Asks

  function Compare(side: BookSide, a: BookOrder, b: BookOrder): int {
    if side == Bids then CompareBidOrder(a, b) else CompareAskOrder(a, b)
  }

  function NotAfter(side: BookSide): (BookOrder, BookOrder) -> bool {
    (a: BookOrder, b: BookOrder) => Compare(side, a, b) <= 0
  }

  /** Better price, then higher fee ratio, then earlier expiry. */
  predicate Precedes(side: BookSide, a: BookOrder, b: BookOrder) {
    var pa := if side == Asks then AskPrice(a) else -BidPrice(a);
    var pb := if side == Asks then AskPrice(b) else -BidPrice(b);
    || pa < pb
    || (pa == pb && FeeRatio(a) > FeeRatio(b))
    || (pa == pb && FeeRatio(a) == FeeRatio(b) && a.order.expirationTimeSeconds < b.order.expirationTimeSeconds)
  }

  /** Both comparators are total preorders whose strict part is the three-key order. */
  lemma ComparatorsAreTotalPreorders(side: BookSide)
    ensures TotalPreorder(NotAfter(side))
    ensures forall a: BookOrder, b: BookOrder :: Compare(side, a, b) < 0 <==> Precedes(side, a, b)
    ensures forall a: BookOrder, b: BookOrder :: Compare(side, a, b) == -Compare(side, b, a)
  {
    var leq := NotAfter(side);
    forall a: BookOrder, b: BookOrder, d: BookOrder | leq(a, b) && leq(b, d) ensures leq(a, d) {
      ComparedKeys(side, a, b);
      ComparedKeys(side, b, d);
      ComparedKeys(side, a, d);
    }
    forall a: BookOrder, b: BookOrder
      ensures Compare(side, a, b) < 0 <==> Precedes(side, a, b)
      ensures Compare(side, a, b) == -Compare(side, b, a)
    {
      ComparedKeys(side, a, b);
    }
  }

  /** Same price, fee ratio and expiry. */
  predicate Ties(side: BookSide, a: BookOrder, b: BookOrder) {
    && (if side == Asks then AskPrice(a) == AskPrice(b) else BidPrice(a) == BidPrice(b))
    && FeeRatio(a) == FeeRatio(b) && a.order.expirationTimeSeconds == b.order.expirationTimeSeconds
  }

  lemma ComparedKeys(side: BookSide, a: BookOrder, b: BookOrder)
    ensures Compare(side, a, b) <= 0 <==> Precedes(side, a, b) || Ties(side, a, b)
    ensures Compare(side, a, b) < 0 <==> Precedes(side, a, b)
    ensures Compare(side, a, b) == 0 <==> Ties(side, a, b)
  {
  }

  lemma QuotientOrder(x: real, y: real, u: real, v: real)
    requires y > 0.0 && v > 0.0
    ensures x / y < u / v <==> x * v < u * y
    ensures x / y == u / v <==> x * v == u * y
  {
    var p, q := x / y, u / v;
    assert x * v == p * (y * v) && u * y == q * (y * v);
    ScaledOrder(p, q, y * v);
  }

  lemma ScaledOrder(p: real, q: real, k: real)
    requires k > 0.0
    ensures p < q <==> p * k < q * k
    ensures p == q <==> p * k == q * k
  {
    if p < q {
      assert (q - p) * k > 0.0;
    } else if q < p {
      assert (p - q) * k > 0.0;
    }
  }

  /** Multiplied out: what one asset costs in the other, then what the taker pays in fees, then the expiry. */
  predicate CheaperFirst(price: (int, int), other: (int, int), fee: (int, int), otherFee: (int, int), expiry: int,
                         otherExpiry: int) {
    || price.0 * other.1 < other.0 * price.1
    || (price.0 * other.1 == other.0 * price.1
        && (|| fee.0 * otherFee.1 > otherFee.0 * fee.1
            || (fee.0 * otherFee.1 == otherFee.0 * fee.1 && expiry < otherExpiry)))
  }

  lemma RatioOrder(x: nat, y: nat, u: nat, v: nat)
    requires y > 0 && v > 0
    ensures x as real / y as real < u as real / v as real <==> x * v < u * y
    ensures x as real / y as real == u as real / v as real <==> x * v == u * y
  {
    QuotientOrder(x as real, y as real, u as real, v as real);
    assert x as real * v as real == (x * v) as real && u as real * y as real == (u * y) as real;
  }

  /**
   * In the orders' own integers: asks ask least taker asset for the maker asset first, bids offer
   * most maker asset for the taker asset first.
   */
  lemma ComparedInIntegers(a: BookOrder, b: BookOrder)
    ensures Compare(Asks, a, b) < 0 <==>
      CheaperFirst((a.order.takerAssetAmount, a.order.makerAssetAmount),
                   (b.order.takerAssetAmount, b.order.makerAssetAmount),
                   (a.order.takerFee, a.order.takerAssetAmount), (b.order.takerFee, b.order.takerAssetAmount),
                   a.order.expirationTimeSeconds, b.order.expirationTimeSeconds)
    ensures Compare(Bids, a, b) < 0 <==>
      CheaperFirst((b.order.makerAssetAmount, b.order.takerAssetAmount),
                   (a.order.makerAssetAmount, a.order.takerAssetAmount),
                   (a.order.takerFee, a.order.takerAssetAmount), (b.order.takerFee, b.order.takerAssetAmount),
                   a.order.expirationTimeSeconds, b.order.expirationTimeSeconds)
  {
    ComparedKeys(Asks, a, b);
    ComparedKeys(Bids, a, b);
    RatioOrder(a.order.takerAssetAmount, a.order.makerAssetAmount, b.order.takerAssetAmount, b.order.makerAssetAmount);
    RatioOrder(b.order.makerAssetAmount, b.order.takerAssetAmount, a.order.makerAssetAmount, a.order.takerAssetAmount);
    RatioOrder(b.order.takerFee, b.order.takerAssetAmount, a.order.takerFee, a.order.takerAssetAmount);
  }

  // ---- one side of the book ----------------------------------------------------------------

  /** The query by the assets of an order. */
  function Pairs(takerAssetData: AssetData, makerAssetData: AssetData): BookOrder -> bool {
    (o: BookOrder) => o.order.takerAssetData == takerAssetData && o.order.makerAssetData == makerAssetData
  }

  function Matching(rows: seq<BookOrder>, takerAssetData: AssetData, makerAssetData: AssetData): (r: seq<BookOrder>)
    ensures forall o :: o in r <==>
      o in rows && o.order.takerAssetData == takerAssetData && o.order.makerAssetData == makerAssetData
  {
    Filter<BookOrder>(rows, Pairs(takerAssetData, makerAssetData))
  }

  /**
   * `.filter(orderUtils.isFreshOrder)`: the array index arrives as the expiry buffer, so the order
   * at index `i` must have more than `i` seconds left.
   */
  function FreshByIndex(orders: seq<BookOrder>, now: real): seq<BookOrder> {
    if orders == [] then []
    else
      var i := |orders| - 1;
      var before := FreshByIndex(orders[..i], now);
      if IsFreshOrder(orders[i].order, now, i) then before + [orders[i]] else before
  }

  /** The order stands in the list at some position that is less than its seconds left. */
  ghost predicate PassesAtItsIndex(orders: seq<BookOrder>, now: real, o: BookOrder) {
    exists i :: 0 <= i < |orders| && orders[i] == o && IsFreshOrder(o.order, now, i)
  }

  lemma {:induction false} FreshByIndexExactly(orders: seq<BookOrder>, now: real, o: BookOrder)
    ensures o in FreshByIndex(orders, now) <==> PassesAtItsIndex(orders, now, o)
  {
    if orders == [] {
    } else {
      var i := |orders| - 1;
      FreshByIndexExactly(orders[..i], now, o);
      if PassesAtItsIndex(orders[..i], now, o) {
        var j :| 0 <= j < i && orders[..i][j] == o && IsFreshOrder(o.order, now, j);
        assert orders[j] == o;
      }
      if PassesAtItsIndex(orders, now, o) && !(orders[i] == o && IsFreshOrder(o.order, now, i)) {
        var j :| 0 <= j < |orders| && orders[j] == o && IsFreshOrder(o.order, now, j);
        assert orders[..i][j] == o;
      }
    }
  }

  /** What the filter reads as: one fixed buffer for every order. */
  function FreshByBuffer(orders: seq<BookOrder>, now: real, buffer: int): (r: seq<BookOrder>)
    ensures forall o :: o in r ==> IsFreshOrder(o.order, now, buffer)
  {
    if orders == [] then []
    else
      var i := |orders| - 1;
      var before := FreshByBuffer(orders[..i], now, buffer);
      if IsFreshOrder(orders[i].order, now, buffer) then before + [orders[i]] else before
  }

  /** The order expires after the earlier of two deadlines but not after the later one. */
  predicate ExpiresBetween(o: Order, now: real, i: int, j: int) {
    var (early, late) := if i <= j then (i, j) else (j, i);
    now + early as real < o.expirationTimeSeconds as real <= now + late as real
  }

  /** No order expires between the deadline of its own index and that of the buffer. */
  ghost predicate IndexActsAsBuffer(orders: seq<BookOrder>, now: real, buffer: int) {
    forall i :: 0 <= i < |orders| ==> !ExpiresBetween(orders[i].order, now, i, buffer)
  }

  lemma SameVerdictUnlessBetween(o: Order, now: real, i: int, j: int)
    ensures !ExpiresBetween(o, now, i, j) <==> (IsFreshOrder(o, now, i) <==> IsFreshOrder(o, now, j))
  {
  }

  lemma {:induction false} BufferKeepsEveryCopy(orders: seq<BookOrder>, now: real, buffer: int, o: BookOrder)
    requires IsFreshOrder(o.order, now, buffer)
    ensures multiset(FreshByIndex(orders, now))[o] <= multiset(FreshByBuffer(orders, now, buffer))[o]
  {
    if orders == [] {
    } else {
      BufferKeepsEveryCopy(orders[..|orders| - 1], now, buffer, o);
    }
  }

  lemma IndexActsNext(orders: seq<BookOrder>, now: real, buffer: int)
    requires orders != []
    ensures var i := |orders| - 1;
      IndexActsAsBuffer(orders, now, buffer) <==>
        IndexActsAsBuffer(orders[..i], now, buffer) && !ExpiresBetween(orders[i].order, now, i, buffer)
  {
    var i := |orders| - 1;
    assert forall k :: 0 <= k < i ==> orders[..i][k] == orders[k];
  }

  /**
   * The filter agrees with a fixed buffer exactly when no order's expiry falls between the time the
   * buffer asks for and the time the order's own index asks for.
   */
  lemma {:induction false} FilterAgreesExactly(orders: seq<BookOrder>, now: real, buffer: int)
    ensures FreshByIndex(orders, now) == FreshByBuffer(orders, now, buffer) <==> IndexActsAsBuffer(orders, now, buffer)
  {
    if orders == [] {
    } else {
      var i := |orders| - 1;
      var byIndex, byBuffer := FreshByIndex(orders[..i], now), FreshByBuffer(orders[..i], now, buffer);
      FilterAgreesExactly(orders[..i], now, buffer);
      IndexActsNext(orders, now, buffer);
      var keptByIndex, keptByBuffer := IsFreshOrder(orders[i].order, now, i),
          IsFreshOrder(orders[i].order, now, buffer);
      SameVerdictUnlessBetween(orders[i].order, now, i, buffer);
      if keptByIndex == keptByBuffer {
        LastMatters(byIndex, byBuffer, orders[i]);
      } else if keptByIndex {
        assert (byIndex + [orders[i]])[|byIndex|] == orders[i];
      } else {
        BufferKeepsEveryCopy(orders[..i], now, buffer, orders[i]);
        assert multiset(byBuffer + [orders[i]])[orders[i]] == multiset(byBuffer)[orders[i]] + 1;
      }
    }
  }

  /** With the usual ten seconds: an order about to expire, alone on its side, passes all the same. */
  lemma FilterIsNotABuffer(o: BookOrder, now: real)
    requires now < o.order.expirationTimeSeconds as real <= now + 10.0
    ensures FreshByIndex([o], now) == [o] && FreshByBuffer([o], now, 10) == []
  {
    assert [o][..0] == [];
  }

  lemma LastMatters(a: seq<BookOrder>, b: seq<BookOrder>, o: BookOrder)
    ensures a + [o] == b + [o] <==> a == b
  {
    if a + [o] == b + [o] {
      assert a == (a + [o])[..|a|];
      assert b == (b + [o])[..|b|];
    }
  }

  /** Bids take the base asset and make the quote asset; asks the other way round. */
  function SideOf(rows: seq<BookOrder>, base: AssetData, quote: AssetData, side: BookSide): seq<BookOrder> {
    if side == Bids then Matching(rows, base, quote) else Matching(rows, quote, base)
  }

  /**
   * A side holds exactly the rows whose assets put them there, each as often and in the same order:
   * bids take the base asset and make the quote asset, asks the other way round.
   */
  lemma SidesExactly(rows: seq<BookOrder>, base: AssetData, quote: AssetData, side: BookSide) returns (at: seq<nat>)
    ensures forall i, j :: 0 <= i < j < |at| ==> at[i] < at[j]
    ensures forall i :: 0 <= i < |rows| ==>
      (i in at <==>
        match side
        case Bids => rows[i].order.takerAssetData == base && rows[i].order.makerAssetData == quote
        case Asks => rows[i].order.takerAssetData == quote && rows[i].order.makerAssetData == base)
    ensures |SideOf(rows, base, quote, side)| == |at|
    ensures forall j :: 0 <= j < |at| ==> at[j] < |rows| && SideOf(rows, base, quote, side)[j] == rows[at[j]]
  {
    if side == Bids {
      at := FilterPositions<BookOrder>(rows, Pairs(base, quote));
    } else {
      at := FilterPositions<BookOrder>(rows, Pairs(quote, base));
    }
  }

  /** Everything on one side of the book, best first. */
  function BookOf(rows: seq<BookOrder>, base: AssetData, quote: AssetData, now: real, side: BookSide): seq<BookOrder> {
    SortBy(FreshByIndex(SideOf(rows, base, quote, side), now), NotAfter(side))
  }

  // ---- pages -------------------------------------------------------------------------------

  /** JavaScript's `slice`, negative and oversized indices included. */
  function SliceIndex(i: int, n: nat): (k: nat)
    ensures k <= n
  {
    if i < 0 then (if n + i < 0 then 0 else n + i) else if i > n then n else i
  }

  function Slice<T>(s: seq<T>, from: int, to: int): seq<T> {
    var a, b := SliceIndex(from, |s|), SliceIndex(to, |s|);
    if a < b then s[a..b] else []
  }

  datatype Page<T> = Page(total: nat, page: int, perPage: int, records: seq<T>)

  function Paginate<T>(collection: seq<T>, page: int, perPage: int): Page<T> {
    Page(|collection|, page, perPage, Slice(collection, (page - 1) * perPage, page * perPage))
  }

  /** The records of pages 1 to `n`. */
  function Records<T>(collection: seq<T>, n: nat, perPage: int): (pages: seq<seq<T>>)
    ensures |pages| == n
  {
    seq(n, i requires 0 <= i < n => Paginate(collection, i + 1, perPage).records)
  }

  lemma {:induction false} PagesGlue<T>(collection: seq<T>, n: nat, perPage: nat)
    requires perPage > 0
    ensures Flatten(Records(collection, n, perPage)) == collection[..SliceIndex(n * perPage, |collection|)]
  {
    if n == 0 {
    } else {
      PagesGlue(collection, n - 1, perPage);
      var pages := Records(collection, n, perPage);
      assert pages == Records(collection, n - 1, perPage) + [pages[n - 1]];
      FlattenSnoc(Records(collection, n - 1, perPage), pages[n - 1]);
      PageBounds(n, perPage);
    }
  }

  lemma PageBounds(n: nat, perPage: nat)
    requires n > 0
    ensures 0 <= (n - 1) * perPage && n * perPage == (n - 1) * perPage + perPage
  {
  }

  /** Enough pages glued together are the whole collection, and none is longer than asked. */
  lemma PagesAreTheCollection<T>(collection: seq<T>, n: nat, perPage: nat)
    requires perPage > 0 && |collection| <= n * perPage
    ensures Flatten(Records(collection, n, perPage)) == collection
    ensures forall i :: 0 <= i < n ==> |Records(collection, n, perPage)[i]| <= perPage
  {
    PagesGlue(collection, n, perPage);
    forall i | 0 <= i < n ensures |Records(collection, n, perPage)[i]| <= perPage {
      PageBounds(i + 1, perPage);
    }
  }

  lemma BookIsSorted(rows: seq<BookOrder>, base: AssetData, quote: AssetData, now: real, side: BookSide)
    ensures Sorted<BookOrder>(BookOf(rows, base, quote, now, side), NotAfter(side))
    ensures multiset(BookOf(rows, base, quote, now, side))
        == multiset(FreshByIndex(SideOf(rows, base, quote, side), now))
  {
    ComparatorsAreTotalPreorders(side);
    SortByCorrect<BookOrder>(FreshByIndex(SideOf(rows, base, quote, side), now), NotAfter(side));
  }

  lemma BookIsComplete(rows: seq<BookOrder>, base: AssetData, quote: AssetData, now: real, side: BookSide, o: BookOrder)
    ensures o in BookOf(rows, base, quote, now, side) <==> PassesAtItsIndex(SideOf(rows, base, quote, side), now, o)
  {
    var list := FreshByIndex(SideOf(rows, base, quote, side), now);
    BookIsSorted(rows, base, quote, now, side);
    FreshByIndexExactly(SideOf(rows, base, quote, side), now, o);
    assert o in list <==> o in multiset(list);
    assert o in BookOf(rows, base, quote, now, side) <==> o in multiset(BookOf(rows, base, quote, now, side));
  }

  /**
   * The pages of a side glued together are sorted, and are a permutation of exactly the matching
   * orders that pass the filter.
   */
  lemma OrderBookPages(rows: seq<BookOrder>, base: AssetData, quote: AssetData, now: real, side: BookSide, n: nat,
                       perPage: nat)
    requires perPage > 0
    ensures |BookOf(rows, base, quote, now, side)| <= n * perPage ==>
      IsWholeSide(Flatten(Records(BookOf(rows, base, quote, now, side), n, perPage)),
                  SideOf(rows, base, quote, side), now, side)
  {
    if |BookOf(rows, base, quote, now, side)| <= n * perPage {
      PagesAreTheCollection<BookOrder>(BookOf(rows, base, quote, now, side), n, perPage);
      BookIsSorted(rows, base, quote, now, side);
      forall o: BookOrder
        ensures o in BookOf(rows, base, quote, now, side) <==> PassesAtItsIndex(SideOf(rows, base, quote, side), now, o)
      {
        BookIsComplete(rows, base, quote, now, side, o);
      }
    }
  }

  ghost predicate IsWholeSide(glued: seq<BookOrder>, matching: seq<BookOrder>, now: real, side: BookSide) {
    && Sorted<BookOrder>(glued, NotAfter(side))
    && multiset(glued) == multiset(FreshByIndex(matching, now))
    && forall o: BookOrder :: o in glued <==> PassesAtItsIndex(matching, now, o)
  }
}
