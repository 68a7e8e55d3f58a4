/** The market updates of the exchange: replaying them rebuilds the books, and no prefix
    of them shows a crossed market. */
module BookStreams {
  import opened Types
  import opened PriceBands
  import opened HalfBooks
  import opened Books
  import opened BookFacts
  import opened Markets

  function EntryOf(side: Side, o: Resting): Entry {
    Entry(side, DEFAULT_PRICE_BAND.ToPrice(o.tick), o.quantity, o.priority)
  }

  /** Each order of the side is in the market as it rests in the book. */
  ghost predicate ShowsSide(m: Market, symbol: nat, side: Side, orders: seq<Resting>) {
    forall i :: 0 <= i < |orders| ==> ShowsOrder(m, symbol, side, orders[i])
  }

  ghost predicate ShowsOrder(m: Market, symbol: nat, side: Side, o: Resting) {
    (symbol, o.marketOrderId) in m && m[(symbol, o.marketOrderId)] == EntryOf(side, o)
  }

  /** Of this symbol, the market has the orders of these two sides and no others. */
  ghost predicate Shows(m: Market, symbol: nat, side: Direction, orders: seq<Resting>, other: seq<Resting>) {
    && ShowsSide(m, symbol, side, orders)
    && ShowsSide(m, symbol, Opposite(side), other)
    && forall id {:trigger (symbol, id)} :: (symbol, id) in m ==> HasId(orders, id) || HasId(other, id)
  }

  ghost predicate DistinctIds(orders: seq<Resting>, other: seq<Resting>) {
    && (forall i, j :: 0 <= i < j < |orders| ==> orders[i].marketOrderId != orders[j].marketOrderId)
    && (forall i, j :: 0 <= i < |orders| && 0 <= j < |other| ==> orders[i].marketOrderId != other[j].marketOrderId)
  }

  ghost predicate SameElsewhere(m: Market, m': Market, symbol: nat) {
    forall key: (nat, nat) :: key.0 != symbol ==> (key in m <==> key in m') && (key in m ==> m'[key] == m[key])
  }

  /** One update about an order of this symbol leaves the other symbols alone. */
  lemma OtherSymbols(m: Market, u: Update)
    requires u.kind in {ADD, MODIFY, CANCEL, TRADE}
    ensures SameElsewhere(m, Apply(m, u), u.symbol)
  {
  }

  lemma GoneShows(m: Market, cfg: Config, side: Direction, orders: seq<Resting>, other: seq<Resting>, i: nat,
                  rest: seq<Resting>)
    requires cfg.band == DEFAULT_PRICE_BAND
    requires Shows(m, cfg.symbol, side, orders, other) && DistinctIds(orders, other)
    requires i < |orders| && rest == orders[..i] + orders[i + 1..]
    requires cfg.symbol < MAX_SYMBOLS
    ensures Fits(m, Gone(cfg, side, orders[i]))
    ensures Shows(Apply(m, Gone(cfg, side, orders[i])), cfg.symbol, side, rest, other)
  {
    var u := Gone(cfg, side, orders[i]);
    var m' := Apply(m, u);
    assert ShowsOrder(m, cfg.symbol, side, orders[i]);
    forall k | 0 <= k < |rest|
      ensures ShowsOrder(m', cfg.symbol, side, rest[k])
    {
      assert ShowsOrder(m, cfg.symbol, side, orders[if k < i then k else k + 1]);
    }
    forall k | 0 <= k < |other|
      ensures ShowsOrder(m', cfg.symbol, Opposite(side), other[k])
    {
      assert ShowsOrder(m, cfg.symbol, Opposite(side), other[k]);
    }
    forall id | (cfg.symbol, id) in m'
      ensures HasId(rest, id) || HasId(other, id)
    {
      if HasId(orders, id) {
        var k :| 0 <= k < |orders| && orders[k].marketOrderId == id;
        assert rest[if k < i then k else k - 1] == orders[k];
      }
    }
  }

  lemma ReducedShows(m: Market, cfg: Config, side: Direction, orders: seq<Resting>, other: seq<Resting>, i: nat,
                     x: nat, rest: seq<Resting>)
    requires cfg.band == DEFAULT_PRICE_BAND && cfg.symbol < MAX_SYMBOLS
    requires Shows(m, cfg.symbol, side, orders, other) && DistinctIds(orders, other)
    requires i < |orders| && x < orders[i].quantity < QUANTITY_MODULUS
    requires rest == orders[i := orders[i].(quantity := orders[i].quantity - x)]
    ensures Fits(m, Reduced(cfg, side, orders[i], x))
    ensures Shows(Apply(m, Reduced(cfg, side, orders[i], x)), cfg.symbol, side, rest, other)
  {
    var u := Reduced(cfg, side, orders[i], x);
    var m' := Apply(m, u);
    assert ShowsOrder(m, cfg.symbol, side, orders[i]);
    forall k | 0 <= k < |rest|
      ensures ShowsOrder(m', cfg.symbol, side, rest[k])
    {
      assert ShowsOrder(m, cfg.symbol, side, orders[k]);
    }
    forall k | 0 <= k < |other|
      ensures ShowsOrder(m', cfg.symbol, Opposite(side), other[k])
    {
      assert ShowsOrder(m, cfg.symbol, Opposite(side), other[k]);
    }
    forall id | (cfg.symbol, id) in m'
      ensures HasId(rest, id) || HasId(other, id)
    {
      assert (cfg.symbol, id) in m;
      if HasId(orders, id) {
        var k :| 0 <= k < |orders| && orders[k].marketOrderId == id;
        assert rest[k].marketOrderId == id;
      }
    }
  }

  lemma RestedShows(m: Market, cfg: Config, side: Direction, h: Half, other: seq<Resting>, x: Resting, nextId: nat)
    requires cfg.band == DEFAULT_PRICE_BAND && cfg.symbol < MAX_SYMBOLS
    requires Shows(m, cfg.symbol, side, h.orders, other)
    requires IdsOk(h.orders, nextId) && IdsOk(other, nextId) && x.marketOrderId == nextId && 1 <= nextId < MAX_ORDER_IDS
    requires |h.nextPriority| == TICK_COUNT && 0 <= x.tick < TICK_COUNT && 0 < x.quantity < QUANTITY_MODULUS
    requires x.priority == h.nextPriority[x.tick]
    ensures Fits(m, Rested(cfg, side, x))
    ensures Shows(Apply(m, Rested(cfg, side, x)), cfg.symbol, side,
                  Insert(side, h, x.tick, x.clientId, x.clientOrderId, nextId, x.quantity).orders, other)
  {
    var p := InsertPos(side, h.orders, x.tick);
    var orders := h.orders[..p] + [x] + h.orders[p..];
    assert orders == Insert(side, h, x.tick, x.clientId, x.clientOrderId, nextId, x.quantity).orders;
    forall k | k in m && k.0 == cfg.symbol
      ensures k.1 < nextId
    {
      assert k == (cfg.symbol, k.1);
      assert HasId(h.orders, k.1) || HasId(other, k.1);
    }
    RestedOrders(m, cfg, side, h.orders, other, x, p, orders);
  }

  lemma RestedOrders(m: Market, cfg: Config, side: Direction, before: seq<Resting>, other: seq<Resting>, x: Resting,
                     p: nat, orders: seq<Resting>)
    requires cfg.band == DEFAULT_PRICE_BAND && (cfg.symbol, x.marketOrderId) !in m
    requires Shows(m, cfg.symbol, side, before, other)
    requires p <= |before| && orders == before[..p] + [x] + before[p..]
    ensures Shows(Apply(m, Rested(cfg, side, x)), cfg.symbol, side, orders, other)
  {
    var m' := Apply(m, Rested(cfg, side, x));
    assert orders[p] == x;
    forall k | 0 <= k < |orders|
      ensures ShowsOrder(m', cfg.symbol, side, orders[k])
    {
      if k != p {
        assert orders[k] == before[if k < p then k else k - 1];
        assert ShowsOrder(m, cfg.symbol, side, before[if k < p then k else k - 1]);
      }
    }
    forall k | 0 <= k < |other|
      ensures ShowsOrder(m', cfg.symbol, Opposite(side), other[k])
    {
      assert ShowsOrder(m, cfg.symbol, Opposite(side), other[k]);
    }
    forall id | (cfg.symbol, id) in m'
      ensures HasId(orders, id) || HasId(other, id)
    {
      if HasId(before, id) {
        var k :| 0 <= k < |before| && before[k].marketOrderId == id;
        assert orders[if k < p then k else k + 1] == before[k];
      }
    }
  }

  ghost predicate UncrossedIn(m: Market, symbol: nat) {
    forall bid, ask | bid in m && ask in m && bid.0 == ask.0 == symbol && m[bid].side == BUY && m[ask].side == SELL ::
      m[bid].price < m[ask].price
  }

  /** A market that shows an uncrossed book is uncrossed in that symbol. */
  lemma ShownUncrossed(m: Market, symbol: nat, side: Direction, orders: seq<Resting>, other: seq<Resting>)
    requires Shows(m, symbol, side, orders, other)
    requires if side == BUY then Apart(orders, other) else Apart(other, orders)
    ensures UncrossedIn(m, symbol)
  {
    forall bid, ask | bid in m && ask in m && bid.0 == ask.0 == symbol && m[bid].side == BUY && m[ask].side == SELL
      ensures m[bid].price < m[ask].price
    {
      var b, bs := ShownBy(m, symbol, side, orders, other, bid.1);
      var a, as_ := ShownBy(m, symbol, side, orders, other, ask.1);
      assert bid == (symbol, bid.1) && ask == (symbol, ask.1);
    }
  }

  lemma ShownBy(m: Market, symbol: nat, side: Direction, orders: seq<Resting>, other: seq<Resting>, id: nat)
    returns (o: Resting, on: Side)
    requires Shows(m, symbol, side, orders, other) && (symbol, id) in m
    ensures o.marketOrderId == id && m[(symbol, id)] == EntryOf(on, o)
    ensures (on == side && o in orders) || (on == Opposite(side) && o in other)
  {
    if HasId(orders, id) {
      var k :| 0 <= k < |orders| && orders[k].marketOrderId == id;
      assert ShowsOrder(m, symbol, side, orders[k]);
      o, on := orders[k], side;
    } else {
      var k :| 0 <= k < |other| && other[k].marketOrderId == id;
      assert ShowsOrder(m, symbol, Opposite(side), other[k]);
      o, on := other[k], Opposite(side);
    }
  }

  lemma UncrossedElsewhere(m: Market, m': Market, symbol: nat)
    requires Uncrossed(m) && SameElsewhere(m, m', symbol) && UncrossedIn(m', symbol)
    ensures Uncrossed(m')
  {
  }

  /** The market knows the two sides of one symbol, which do not cross. */
  ghost predicate InStep(m: Market, symbol: nat, side: Direction, orders: seq<Resting>, other: seq<Resting>) {
    && Uncrossed(m)
    && Shows(m, symbol, side, orders, other)
    && DistinctIds(orders, other)
    && (if side == BUY then Apart(orders, other) else Apart(other, orders))
  }

  lemma StaysUncrossed(m: Market, u: Update, side: Direction, orders: seq<Resting>, other: seq<Resting>)
    requires Uncrossed(m) && u.kind in {ADD, MODIFY, UpdateType.CANCEL, TRADE}
    requires Shows(Apply(m, u), u.symbol, side, orders, other) && DistinctIds(orders, other)
    requires if side == BUY then Apart(orders, other) else Apart(other, orders)
    ensures InStep(Apply(m, u), u.symbol, side, orders, other)
  {
    OtherSymbols(m, u);
    ShownUncrossed(Apply(m, u), u.symbol, side, orders, other);
    UncrossedElsewhere(m, Apply(m, u), u.symbol);
  }

  /** One fill: its trade and its change of the maker, seen by a consumer. */
  lemma FillStream(m: Market, cfg: Config, t: Taker, h: Half, index: map<Key, nat>, other: seq<Resting>)
    requires cfg.band == DEFAULT_PRICE_BAND && cfg.symbol < MAX_SYMBOLS
    requires CanTrade(t, h) && TicksOk(h) && Positive(h.orders)
    requires InStep(m, cfg.symbol, Opposite(t.side), h.orders, other)
    ensures var first := FillFirst(cfg, t, h, index);
            && Clean(m, first.updates)
            && InStep(Replay(m, first.updates), cfg.symbol, Opposite(t.side), first.half.orders, other)
            && SameElsewhere(m, Replay(m, first.updates), cfg.symbol)
  {
    hide Shows, DistinctIds, Apart, Subset, Uncrossed, Positive;
    var side := Opposite(t.side);
    FillShows(m, cfg, t, h, index, other);
    var first := FillFirst(cfg, t, h, index);
    var u0, u1 := first.updates[0], first.updates[1];
    SubsetOfSelf(other);
    if side == BUY {
      SubsetApart(first.half.orders, other, h.orders, other);
    } else {
      SubsetApart(other, first.half.orders, other, h.orders);
    }
    StaysUncrossed(m, u1, side, first.half.orders, other);
    OtherSymbols(m, u1);
    TwoUpdates(m, u0, u1);
    assert first.updates == [u0, u1];
  }

  lemma TwoUpdates(m: Market, u0: Update, u1: Update)
    requires Uncrossed(m) && Fits(m, u0) && Apply(m, u0) == m && Fits(m, u1) && Uncrossed(Apply(m, u1))
    ensures Clean(m, [u0, u1]) && Replay(m, [u0, u1]) == Apply(m, u1)
  {
    assert [u0, u1][1..] == [u1] && [u1][1..] == [];
    assert Clean(Apply(m, u1), []);
    assert Clean(m, [u1]);
    assert Replay(m, [u0, u1]) == Replay(m, [u1]) == Replay(Apply(m, u1), []);
  }

  /** The change of the maker, seen by a consumer. */
  lemma FillShows(m: Market, cfg: Config, t: Taker, h: Half, index: map<Key, nat>, other: seq<Resting>)
    requires cfg.band == DEFAULT_PRICE_BAND && cfg.symbol < MAX_SYMBOLS
    requires CanTrade(t, h) && TicksOk(h) && Positive(h.orders)
    requires Shows(m, cfg.symbol, Opposite(t.side), h.orders, other) && DistinctIds(h.orders, other)
    ensures var first := FillFirst(cfg, t, h, index);
            && |first.updates| == 2
            && Fits(m, first.updates[0]) && Apply(m, first.updates[0]) == m
            && Fits(m, first.updates[1])
            && Shows(Apply(m, first.updates[1]), cfg.symbol, Opposite(t.side), first.half.orders, other)
            && DistinctIds(first.half.orders, other) && Subset(first.half.orders, h.orders)
            && first.updates[1].symbol == cfg.symbol && first.updates[1].kind in {MODIFY, UpdateType.CANCEL}
  {
    hide FillFirst, Subset, Shows, DistinctIds, Fits, Apply, Traded, Gone, Reduced;
    FillShape(cfg, t, h, index);
    var side, o, rest := Opposite(t.side), h.orders[0], FillFirst(cfg, t, h, index).half.orders;
    TradeShows(m, cfg, side, h.orders, other, Min(t.quantity, o.quantity));
    if o.quantity <= t.quantity {
      assert rest == h.orders[..0] + h.orders[1..];
      GoneShows(m, cfg, side, h.orders, other, 0, rest);
      RemovedSubset(h.orders, 0);
      TailDistinct(h.orders, other);
    } else {
      ReducedShows(m, cfg, side, h.orders, other, 0, t.quantity, rest);
      ReducedSubset(h.orders, t.quantity);
      SameIdsDistinct(h.orders, rest, other);
    }
    UpdateKinds(cfg, side, o, t.quantity);
  }

  /** A trade says nothing about what rests. */
  lemma TradeShows(m: Market, cfg: Config, side: Direction, orders: seq<Resting>, other: seq<Resting>, x: nat)
    requires cfg.band == DEFAULT_PRICE_BAND && cfg.symbol < MAX_SYMBOLS
    requires Shows(m, cfg.symbol, side, orders, other) && orders != [] && x <= orders[0].quantity
    ensures Fits(m, Traded(cfg, side, orders[0], x)) && Apply(m, Traded(cfg, side, orders[0], x)) == m
  {
    assert ShowsOrder(m, cfg.symbol, side, orders[0]);
  }

  lemma TailDistinct(orders: seq<Resting>, other: seq<Resting>)
    requires DistinctIds(orders, other) && orders != []
    ensures DistinctIds(orders[1..], other)
  {
  }

  lemma SameIdsDistinct(orders: seq<Resting>, orders': seq<Resting>, other: seq<Resting>)
    requires DistinctIds(orders, other) && |orders'| == |orders|
    requires forall i :: 0 <= i < |orders| ==> orders'[i].marketOrderId == orders[i].marketOrderId
    ensures DistinctIds(orders', other)
  {
  }

  lemma UpdateKinds(cfg: Config, side: Direction, o: Resting, x: nat)
    ensures Gone(cfg, side, o).kind == UpdateType.CANCEL && Gone(cfg, side, o).symbol == cfg.symbol
    ensures x < o.quantity ==> Reduced(cfg, side, o, x).kind == MODIFY && Reduced(cfg, side, o, x).symbol == cfg.symbol
  {
  }

  lemma ReducedSubset(orders: seq<Resting>, x: nat)
    requires orders != [] && x <= orders[0].quantity
    ensures Subset(orders[0 := orders[0].(quantity := orders[0].quantity - x)], orders)
  {
    var rest := orders[0 := orders[0].(quantity := orders[0].quantity - x)];
    forall k | 0 <= k < |rest|
      ensures SameOrder(rest[k], orders)
    {
      assert orders[k].tick == rest[k].tick;
    }
  }

  /** Matching, seen by a consumer: every prefix of its updates is uncrossed. */
  lemma {:induction false} MatchStream(m: Market, cfg: Config, t: Taker, h: Half, index: map<Key, nat>,
                                       other: seq<Resting>)
    requires cfg.band == DEFAULT_PRICE_BAND && cfg.symbol < MAX_SYMBOLS
    requires TicksOk(h) && Positive(h.orders)
    requires InStep(m, cfg.symbol, Opposite(t.side), h.orders, other)
    ensures var done := Match(cfg, t, h, index);
            && Clean(m, done.updates)
            && InStep(Replay(m, done.updates), cfg.symbol, Opposite(t.side), done.half.orders, other)
            && SameElsewhere(m, Replay(m, done.updates), cfg.symbol)
    decreases t.quantity + |h.orders|
  {
    hide InStep, FillFirst, Replay, Match;
    if CanTrade(t, h) {
      FillStream(m, cfg, t, h, index, other);
      MatchUnfold(cfg, t, h, index);
      FillKeepsPositive(cfg, t, h, index);
      var first := FillFirst(cfg, t, h, index);
      var m1 := Replay(m, first.updates);
      MatchStream(m1, cfg, t.(quantity := first.left), first.half, first.index, other);
      var rest := Match(cfg, t.(quantity := first.left), first.half, first.index);
      CleanConcat(m, first.updates, rest.updates);
      ReplayConcat(m, first.updates, rest.updates);
    } else {
      MatchNothing(m, cfg, t, h, index);
      assert Uncrossed(m) by {
        InStepUncrossed(m, cfg.symbol, Opposite(t.side), h.orders, other);
      }
    }
  }

  lemma MatchNothing(m: Market, cfg: Config, t: Taker, h: Half, index: map<Key, nat>)
    requires TicksOk(h) && !CanTrade(t, h)
    ensures Match(cfg, t, h, index) == Matched(t.quantity, h, index, [], []) && Replay(m, []) == m
  {
  }

  lemma InStepUncrossed(m: Market, symbol: nat, side: Direction, orders: seq<Resting>, other: seq<Resting>)
    requires InStep(m, symbol, side, orders, other)
    ensures Uncrossed(m)
  {
  }

  ghost predicate Knows(m: Market, symbol: nat, b: Book) {
    InStep(m, symbol, BUY, b.bids.orders, b.asks.orders)
  }

  lemma KnowsSide(m: Market, symbol: nat, b: Book, side: Direction)
    requires Invariant(b)
    ensures Knows(m, symbol, b) <==> InStep(m, symbol, side, HalfOf(b, side).orders, HalfOf(b, Opposite(side)).orders)
  {
  }

  lemma AddStream(m: Market, cfg: Config, b: Book, r: Request)
    requires cfg.band == DEFAULT_PRICE_BAND && cfg.symbol < MAX_SYMBOLS && Invariant(b) && BookTicksOk(b)
    requires r.New? && Acceptable(cfg, r) && b.nextId < MAX_ORDER_IDS && Knows(m, cfg.symbol, b)
    ensures var done := Add(cfg, b, r);
            && Clean(m, done.updates) && Knows(Replay(m, done.updates), cfg.symbol, done.book)
            && SameElsewhere(m, Replay(m, done.updates), cfg.symbol)
  {
    hide InStep, Knows, Match, WellFormed, IdsOk, Apart, Insert, IndexSound, Clean;
    PriceOfTick(cfg.band, r.price);
    var tick := cfg.band.ToTick(r.price);
    var t := Taker(r.clientId, r.clientOrderId, b.nextId, r.side, tick, r.quantity);
    var h, own := HalfOf(b, Opposite(r.side)), HalfOf(b, r.side);
    var done := Match(cfg, t, h, b.index);
    KnowsSide(m, cfg.symbol, b, Opposite(r.side));
    MatchStream(m, cfg, t, h, b.index, own.orders);
    MatchKeeps(cfg, b, t);
    AddKeeps(cfg, b, r);
    NothingCrosses(cfg, t, h, b.index);
    var b1 := WithHalf(b, Opposite(r.side), done.half).(index := done.index);
    var m1 := Replay(m, done.updates);
    KnowsSide(m1, cfg.symbol, b1, Opposite(r.side));
    var b2 := Add(cfg, b, r).book;
    if done.left > 0 {
      var x := Resting(r.clientId, r.clientOrderId, b.nextId, tick, done.left, own.nextPriority[tick]);
      InvariantGivesSides(b1);
      InvariantGivesBookTicks(b1);
      RestStream(m1, cfg, b1, b2, r.side, x);
      CleanConcat(m, done.updates, [Rested(cfg, r.side, x)]);
      ReplayConcat(m, done.updates, [Rested(cfg, r.side, x)]);
    } else {
      SameBook(m1, cfg.symbol, b1, b2);
    }
  }

  lemma SameBook(m: Market, symbol: nat, b: Book, b': Book)
    requires Knows(m, symbol, b) && b.bids == b'.bids && b.asks == b'.asks
    ensures Knows(m, symbol, b')
  {
  }

  /** The remainder comes to rest: one more update. */
  lemma RestStream(m: Market, cfg: Config, b: Book, b': Book, side: Direction, x: Resting)
    requires cfg.band == DEFAULT_PRICE_BAND && cfg.symbol < MAX_SYMBOLS && Invariant(b) && Invariant(b')
    requires Knows(m, cfg.symbol, b) && x.marketOrderId == b.nextId < MAX_ORDER_IDS
    requires BookTicksOk(b) && 0 <= x.tick < TICK_COUNT && 0 < x.quantity < QUANTITY_MODULUS
    requires x.priority == HalfOf(b, side).nextPriority[x.tick]
    requires HalfOf(b', side)
      == Insert(side, HalfOf(b, side), x.tick, x.clientId, x.clientOrderId, b.nextId, x.quantity)
    requires HalfOf(b', Opposite(side)) == HalfOf(b, Opposite(side))
    ensures Clean(m, [Rested(cfg, side, x)]) && Knows(Replay(m, [Rested(cfg, side, x)]), cfg.symbol, b')
    ensures SameElsewhere(m, Replay(m, [Rested(cfg, side, x)]), cfg.symbol)
  {
    hide WellFormed, Insert, IndexSound, IdsOk, Apart;
    var u, own, other := Rested(cfg, side, x), HalfOf(b, side), HalfOf(b, Opposite(side));
    KnowsSide(m, cfg.symbol, b, side);
    RestedShows(m, cfg, side, own, other.orders, x, b.nextId);
    InvariantIds(b', side);
    StaysUncrossed(m, u, side, HalfOf(b', side).orders, other.orders);
    KnowsSide(Apply(m, u), cfg.symbol, b', side);
    OtherSymbols(m, u);
    OneUpdate(m, u);
  }

  lemma OneUpdate(m: Market, u: Update)
    requires Uncrossed(m) && Fits(m, u) && Uncrossed(Apply(m, u))
    ensures Clean(m, [u]) && Replay(m, [u]) == Apply(m, u)
  {
    assert [u][1..] == [];
    assert Clean(Apply(m, u), []);
  }

  lemma InvariantIds(b: Book, side: Direction)
    requires Invariant(b)
    ensures DistinctIds(HalfOf(b, side).orders, HalfOf(b, Opposite(side)).orders)
    ensures if side == BUY then Apart(HalfOf(b, side).orders, HalfOf(b, Opposite(side)).orders)
            else Apart(HalfOf(b, Opposite(side)).orders, HalfOf(b, side).orders)
  {
  }

  lemma CancelStream(m: Market, cfg: Config, b: Book, side: Direction, i: nat)
    requires cfg.band == DEFAULT_PRICE_BAND && cfg.symbol < MAX_SYMBOLS && Invariant(b) && BookTicksOk(b)
    requires i < |HalfOf(b, side).orders| && Knows(m, cfg.symbol, b)
    ensures var done := RemoveFrom(cfg, b, side, i);
            && Clean(m, done.updates) && Knows(Replay(m, done.updates), cfg.symbol, done.book)
            && SameElsewhere(m, Replay(m, done.updates), cfg.symbol)
  {
    hide WellFormed, IndexSound, IdsOk, Apart, HasTick;
    var done := RemoveFrom(cfg, b, side, i);
    var u, h := Gone(cfg, side, HalfOf(b, side).orders[i]), HalfOf(b, side);
    var rest, other := RemoveAt(h, i).orders, HalfOf(b, Opposite(side)).orders;
    RemoveKeeps(cfg, b, side, i);
    KnowsSide(m, cfg.symbol, b, side);
    InvariantIds(b, side);
    GoneShows(m, cfg, side, h.orders, other, i, rest);
    InvariantIds(done.book, side);
    StaysUncrossed(m, u, side, rest, other);
    KnowsSide(Apply(m, u), cfg.symbol, done.book, side);
    OtherSymbols(m, u);
    OneUpdate(m, u);
  }

  /** One request: the updates it sends turn the market of the book before into the market
      of the book after, and show no crossed market on the way. */
  lemma StepStream(m: Market, cfg: Config, b: Book, r: Request)
    requires cfg.band == DEFAULT_PRICE_BAND && cfg.symbol < MAX_SYMBOLS && Invariant(b) && Acceptable(cfg, r)
    requires r.New? ==> b.nextId < MAX_ORDER_IDS
    requires Knows(m, cfg.symbol, b)
    ensures BookTicksOk(b)
    ensures var done := Step(cfg, b, r);
            && Clean(m, done.updates) && Knows(Replay(m, done.updates), cfg.symbol, done.book)
            && SameElsewhere(m, Replay(m, done.updates), cfg.symbol)
  {
    hide Add, Clean, Knows, Invariant, RemoveFrom;
    InvariantGivesSides(b);
    InvariantGivesBookTicks(b);
    if r.New? {
      AddStream(m, cfg, b, r);
    } else {
      var key := (r.clientId, r.clientOrderId);
      if key in b.index && Position(b.bids.orders, b.index[key]) < |b.bids.orders| {
        CancelStream(m, cfg, b, BUY, Position(b.bids.orders, b.index[key]));
      } else if key in b.index && Position(b.asks.orders, b.index[key]) < |b.asks.orders| {
        CancelStream(m, cfg, b, SELL, Position(b.asks.orders, b.index[key]));
      } else {
        NoUpdates(m, cfg.symbol, b);
      }
    }
  }

  lemma NoUpdates(m: Market, symbol: nat, b: Book)
    requires Knows(m, symbol, b)
    ensures Clean(m, []) && Replay(m, []) == m && SameElsewhere(m, m, symbol)
  {
  }
}
