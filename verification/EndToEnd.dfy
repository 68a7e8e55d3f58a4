/** From the exchange's books, over the lossy channels, to the client's mirror. */
module EndToEnd {
  import opened Types
  import opened PriceBands
  import HalfBooks
  import Books
  import opened Markets
  import opened BookStreams
  import Exchange = ExchangeRuns
  import opened Snapshots
  import Replication = Replications
  import opened MirrorSpecs
  import opened MirrorFacts

  /** An order as a client sees it. */
  datatype Public = Public(id: nat, entry: Entry)

  /** The orders of one side of a mirror, best price first and oldest first at each price. */
  ghost function Flat(m: Mirror, prices: seq<int>): seq<Public> {
    if prices == [] then []
    else if prices[0] !in m.queues then Flat(m, prices[1..])
    else Listed(m, m.queues[prices[0]]) + Flat(m, prices[1..])
  }

  ghost function Listed(m: Mirror, ids: seq<nat>): (r: seq<Public>)
    ensures |r| == |ids|
    ensures forall j :: 0 <= j < |ids| && ids[j] in m.entries ==> r[j] == Public(ids[j], m.entries[ids[j]])
  {
    seq(|ids|, j requires 0 <= j < |ids| =>
      Public(ids[j], if ids[j] in m.entries then m.entries[ids[j]] else Entry(NoSide, 0, 0, 0)))
  }

  /** The orders of one side of an exchange book in the order in which they will trade. */
  ghost function Resting(side: Direction, orders: seq<HalfBooks.Resting>): (r: seq<Public>)
    ensures |r| == |orders|
    ensures forall i :: 0 <= i < |r| ==> r[i] == Public(orders[i].marketOrderId, EntryOf(side, orders[i]))
  {
    seq(|orders|, i requires 0 <= i < |orders| => Public(orders[i].marketOrderId, EntryOf(side, orders[i])))
  }

  // ----- price-id order determines the sequence -----

  /** Better price, or the same price and the smaller id. */
  predicate Ahead(side: Direction, a: Public, b: Public) {
    Better(side, a.entry.price, b.entry.price) || (a.entry.price == b.entry.price && a.id < b.id)
  }

  ghost predicate Ordered(side: Direction, s: seq<Public>) {
    forall i, j :: 0 <= i < j < |s| ==> Ahead(side, s[i], s[j])
  }

  lemma {:induction false} OrderIsUnique(side: Direction, s: seq<Public>, t: seq<Public>)
    requires Ordered(side, s) && Ordered(side, t)
    requires forall x :: x in s <==> x in t
    ensures s == t
    decreases |s|
  {
    assert (s != [] ==> s[0] in t) && (t != [] ==> t[0] in s);
    if s == [] {
    } else {
      FirstIsFirst(side, s, t);
      forall x
        ensures x in s[1..] <==> x in t[1..]
      {
        RestOf(side, s, x);
        RestOf(side, t, x);
      }
      OrderIsUnique(side, s[1..], t[1..]);
      assert s == [s[0]] + s[1..] && t == [t[0]] + t[1..];
    }
  }

  lemma RestOf(side: Direction, s: seq<Public>, x: Public)
    requires Ordered(side, s) && s != []
    ensures x in s[1..] <==> x in s && x != s[0]
  {
    assert forall i :: 0 < i < |s| ==> Ahead(side, s[0], s[i]);
  }

  lemma FirstIsFirst(side: Direction, s: seq<Public>, t: seq<Public>)
    requires Ordered(side, s) && Ordered(side, t) && s != [] && t != []
    requires forall x :: x in s <==> x in t
    ensures s[0] == t[0]
  {
    assert s[0] in t && t[0] in s;
    var i :| 0 <= i < |t| && t[i] == s[0];
    var j :| 0 <= j < |s| && s[j] == t[0];
    assert (i > 0 ==> Ahead(side, t[0], t[i])) && (j > 0 ==> Ahead(side, s[0], s[j]));
  }

  // ----- both lists are in that order and have the same members -----

  lemma {:induction false} FlatOrdered(m: Mirror, side: Direction, prices: seq<int>)
    requires MirrorOk(m) && SortedPrices(side, prices) && forall p :: p in prices ==> p in m.queues
    ensures Ordered(side, Flat(m, prices))
    ensures forall x :: x in Flat(m, prices) ==>
              x.id in m.entries && x.entry == m.entries[x.id] && x.entry.price in prices
  {
    if prices == [] {
    } else {
      var p, q := prices[0], m.queues[prices[0]];
      assert forall i, j :: 0 <= i < j < |prices[1..]| ==> Better(side, prices[1..][i], prices[1..][j]);
      FlatOrdered(m, side, prices[1..]);
      QueueListed(m, side, p);
      hide MirrorOk;
      assert p in prices;
      forall x | x in Flat(m, prices[1..])
        ensures Better(side, p, x.entry.price)
      {
        var i :| 0 <= i < |prices[1..]| && prices[1..][i] == x.entry.price;
        assert Better(side, prices[0], prices[i + 1]);
      }
      OrderedConcat(side, Listed(m, q), Flat(m, prices[1..]));
    }
  }

  lemma QueueListed(m: Mirror, side: Direction, p: int)
    requires MirrorOk(m) && p in m.queues
    ensures Ordered(side, Listed(m, m.queues[p]))
    ensures forall x :: x in Listed(m, m.queues[p]) ==>
              x.id in m.entries && x.entry == m.entries[x.id] && x.entry.price == p
    ensures forall id :: id in m.queues[p] ==> id in m.entries && Public(id, m.entries[id]) in Listed(m, m.queues[p])
  {
    var q := m.queues[p];
    assert QueueOk(m, p);
    forall j | 0 <= j < |q|
      ensures q[j] in m.entries && m.entries[q[j]].price == p && Listed(m, q)[j] == Public(q[j], m.entries[q[j]])
    {
      assert InQueue(m, p, q[j]);
    }
  }

  lemma OrderedConcat(side: Direction, s: seq<Public>, t: seq<Public>)
    requires Ordered(side, s) && Ordered(side, t)
    requires forall x, y :: x in s && y in t ==> Ahead(side, x, y)
    ensures Ordered(side, s + t)
  {
    forall i, j | 0 <= i < j < |s + t|
      ensures Ahead(side, (s + t)[i], (s + t)[j])
    {
      if j < |s| {
        assert Ahead(side, s[i], s[j]);
      } else if i >= |s| {
        assert Ahead(side, t[i - |s|], t[j - |s|]);
      } else {
        assert s[i] in s && t[j - |s|] in t;
      }
    }
  }

  lemma {:induction false} FlatHas(m: Mirror, prices: seq<int>, id: nat)
    requires MirrorOk(m) && id in m.entries && m.entries[id].price in prices
    requires forall p :: p in prices ==> p in m.queues
    ensures Public(id, m.entries[id]) in Flat(m, prices)
  {
    if prices[0] == m.entries[id].price {
      OrderPlace(m, id);
      QueueListed(m, BUY, prices[0]);
    } else {
      FlatHas(m, prices[1..], id);
    }
  }

  lemma RestingOrdered(side: Direction, h: HalfBooks.Half, nextId: nat)
    requires Books.SideOk(side, h, nextId)
    ensures Ordered(side, Resting(side, h.orders))
  {
    var orders := h.orders;
    forall i, j | 0 <= i < j < |orders|
      ensures Ahead(side, Resting(side, orders)[i], Resting(side, orders)[j])
    {
      assert HalfBooks.Before(side, orders[i], orders[j]);
      PriceOrder(DEFAULT_PRICE_BAND, orders[i].tick, orders[j].tick);
      PriceOrder(DEFAULT_PRICE_BAND, orders[j].tick, orders[i].tick);
    }
  }

  /** The orders of one side of a market, best price first and oldest first at each price. */
  ghost predicate IsListing(market: Market, symbol: nat, side: Direction, s: seq<Public>) {
    Ordered(side, s) && forall x :: x in s <==> InMarket(market, symbol, side, x)
  }

  ghost predicate InMarket(market: Market, symbol: nat, side: Direction, x: Public) {
    (symbol, x.id) in market && market[(symbol, x.id)] == x.entry && x.entry.side == side
  }

  /** A market has one listing of a side. */
  lemma ListingIsUnique(market: Market, symbol: nat, side: Direction, s: seq<Public>, t: seq<Public>)
    requires IsListing(market, symbol, side, s) && IsListing(market, symbol, side, t)
    ensures s == t
  {
    assert forall x :: x in s <==> InMarket(market, symbol, side, x);
    assert forall x :: x in t <==> InMarket(market, symbol, side, x);
    hide InMarket;
    OrderIsUnique(side, s, t);
  }

  /** A mirror that shows a market lists it. */
  lemma FlatIsListing(m: Mirror, market: Market, symbol: nat, side: Direction)
    requires MirrorOk(m) && ShowsMarket(m, market, symbol)
    ensures IsListing(market, symbol, side, Flat(m, PricesOf(m, side)))
  {
    SidePrices(m, side);
    FlatOrdered(m, side, PricesOf(m, side));
    hide MirrorOk, Flat, Ordered;
    forall x
      ensures x in Flat(m, PricesOf(m, side)) <==> InMarket(market, symbol, side, x)
    {
      if x in Flat(m, PricesOf(m, side)) {
        SideOfPrice(m, side, x.id);
        assert (symbol, x.id) in market;
      }
      if InMarket(market, symbol, side, x) {
        assert (symbol, x.id) in market;
        SideOfPrice(m, side, x.id);
        FlatHas(m, PricesOf(m, side), x.id);
      }
    }
  }

  lemma SidePrices(m: Mirror, side: Direction)
    requires MirrorOk(m)
    ensures SortedPrices(side, PricesOf(m, side)) && forall p :: p in PricesOf(m, side) ==> p in m.queues
  {
  }

  /** A market that knows a book lists its orders in the order in which they will trade. */
  lemma RestingIsListing(market: Market, symbol: nat, b: Books.Book, side: Direction)
    requires Knows(market, symbol, b) && Books.Invariant(b)
    ensures IsListing(market, symbol, side, Resting(side, Books.HalfOf(b, side).orders))
  {
    var orders := Books.HalfOf(b, side).orders;
    SideIsOrdered(b, side);
    hide Ordered, Books.Invariant, Knows, InMarket;
    forall x
      ensures x in Resting(side, orders) <==> InMarket(market, symbol, side, x)
    {
      if x in Resting(side, orders) {
        var i :| 0 <= i < |orders| && Resting(side, orders)[i] == x;
        RestsInMarket(market, symbol, b, side, i);
      }
      if InMarket(market, symbol, side, x) {
        EntryRests(market, symbol, b, side, x);
      }
    }
  }

  /** A mirror that shows a market which knows a book lists the orders of that book, with
      side, price, quantity and priority, in the order in which they will trade. */
  lemma MirrorListsBook(m: Mirror, market: Market, symbol: nat, b: Books.Book, side: Direction)
    requires MirrorOk(m) && ShowsMarket(m, market, symbol) && Knows(market, symbol, b) && Books.Invariant(b)
    ensures Flat(m, PricesOf(m, side)) == Resting(side, Books.HalfOf(b, side).orders)
  {
    hide MirrorOk, ShowsMarket, Knows, Books.Invariant, IsListing, Flat;
    FlatIsListing(m, market, symbol, side);
    RestingIsListing(market, symbol, b, side);
    ListingIsUnique(market, symbol, side, Flat(m, PricesOf(m, side)), Resting(side, Books.HalfOf(b, side).orders));
  }

  lemma SideOfPrice(m: Mirror, side: Direction, id: nat)
    requires MirrorOk(m) && id in m.entries
    ensures m.entries[id].price in PricesOf(m, side) <==> m.entries[id].side == side
  {
    OrderPlace(m, id);
    var p := m.entries[id].price;
    assert QueueOk(m, p);
    var j :| 0 <= j < |m.queues[p]| && m.queues[p][j] == id;
    assert InQueue(m, p, id);
  }

  lemma SideIsOrdered(b: Books.Book, side: Direction)
    requires Books.Invariant(b)
    ensures Ordered(side, Resting(side, Books.HalfOf(b, side).orders))
  {
    hide Ordered, Books.IndexSound;
    RestingOrdered(side, Books.HalfOf(b, side), b.nextId);
  }

  lemma RestsInMarket(market: Market, symbol: nat, b: Books.Book, side: Direction, i: nat)
    requires Knows(market, symbol, b) && i < |Books.HalfOf(b, side).orders|
    ensures InMarket(market, symbol, side, Resting(side, Books.HalfOf(b, side).orders)[i])
  {
    assert ShowsOrder(market, symbol, side, Books.HalfOf(b, side).orders[i]);
  }

  lemma EntryRests(market: Market, symbol: nat, b: Books.Book, side: Direction, x: Public)
    requires Knows(market, symbol, b) && InMarket(market, symbol, side, x)
    ensures x in Resting(side, Books.HalfOf(b, side).orders)
  {
    var other := Books.HalfOf(b, Opposite(side)).orders;
    var orders := Books.HalfOf(b, side).orders;
    assert forall i :: 0 <= i < |other| ==> ShowsOrder(market, symbol, Opposite(side), other[i]);
    assert Books.HasId(orders, x.id);
    var i :| 0 <= i < |orders| && orders[i].marketOrderId == x.id;
    assert ShowsOrder(market, symbol, side, orders[i]);
    assert Resting(side, orders)[i] == x;
  }

  // ----- the best bid and offer -----

  /** Total quantity at a price. */
  ghost function QuantityAt(s: seq<Public>, price: int): nat {
    if s == [] then 0 else (if s[0].entry.price == price then s[0].entry.quantity else 0) + QuantityAt(s[1..], price)
  }

  lemma {:induction false} QuantityConcat(s: seq<Public>, t: seq<Public>, price: int)
    ensures QuantityAt(s + t, price) == QuantityAt(s, price) + QuantityAt(t, price)
  {
    if s == [] {
      assert s + t == t;
    } else {
      assert (s + t)[1..] == s[1..] + t;
      QuantityConcat(s[1..], t, price);
    }
  }

  lemma {:induction false} QuantityAbsent(s: seq<Public>, price: int)
    requires forall x :: x in s ==> x.entry.price != price
    ensures QuantityAt(s, price) == 0
  {
    if s == [] {
    } else {
      assert s[0] in s;
      QuantityAbsent(s[1..], price);
    }
  }

  lemma {:induction false} QuantityResting(side: Direction, orders: seq<HalfBooks.Resting>, tick: int)
    ensures QuantityAt(Resting(side, orders), DEFAULT_PRICE_BAND.ToPrice(tick)) == HalfBooks.SumAt(orders, tick)
  {
    if orders == [] {
    } else {
      QuantityResting(side, orders[1..], tick);
      assert Resting(side, orders)[1..] == Resting(side, orders[1..]);
      PriceOrder(DEFAULT_PRICE_BAND, orders[0].tick, tick);
    }
  }

  lemma {:induction false} QuantityListed(m: Mirror, p: int, ids: seq<nat>)
    requires forall j :: 0 <= j < |ids| ==> ids[j] in m.entries && m.entries[ids[j]].price == p
    ensures QuantityAt(Listed(m, ids), p) == SumQuantity(m.entries, ids)
  {
    if ids == [] {
    } else {
      var n := |ids| - 1;
      QuantityListed(m, p, ids[..n]);
      assert Listed(m, ids) == Listed(m, ids[..n]) + [Public(ids[n], m.entries[ids[n]])];
      QuantityConcat(Listed(m, ids[..n]), [Public(ids[n], m.entries[ids[n]])], p);
    }
  }

  /** The first price of a listing and the 32-bit total at it; zeros when there is no order. */
  ghost function BestOf(s: seq<Public>): (int, nat) {
    if s == [] then (0, 0) else (s[0].entry.price, QuantityAt(s, s[0].entry.price) % QUANTITY_MODULUS)
  }

  /** The best level of a mirror: its queue comes first, and no later order has its price. */
  lemma FirstLevel(m: Mirror, side: Direction)
    requires MirrorOk(m) && PricesOf(m, side) != []
    ensures var prices := PricesOf(m, side);
            var p := prices[0];
            && p in m.queues && m.queues[p] != []
            && Flat(m, prices) == Listed(m, m.queues[p]) + Flat(m, prices[1..])
            && (forall x :: x in Flat(m, prices[1..]) ==> x.entry.price != p)
            && (forall j :: 0 <= j < |m.queues[p]| ==>
                m.queues[p][j] in m.entries && m.entries[m.queues[p][j]].price == p)
  {
    var prices := PricesOf(m, side);
    assert prices[0] in prices && prices[0] in m.queues;
    SidePrices(m, side);
    LaterPrices(m, side, prices);
    assert QueueOk(m, prices[0]);
    forall j | 0 <= j < |m.queues[prices[0]]|
      ensures m.queues[prices[0]][j] in m.entries && m.entries[m.queues[prices[0]][j]].price == prices[0]
    {
      assert InQueue(m, prices[0], m.queues[prices[0]][j]);
    }
  }

  /** The top of a mirror is the best of what it lists. */
  lemma TopIsBest(m: Mirror, side: Direction)
    requires MirrorOk(m)
    ensures Top(m, side) == BestOf(Flat(m, PricesOf(m, side)))
  {
    hide MirrorOk, SumQuantity, QuantityAt;
    var prices := PricesOf(m, side);
    if prices == [] {
      assert Flat(m, prices) == [];
    } else {
      FirstLevel(m, side);
      hide Flat;
      var p, q := prices[0], m.queues[prices[0]];
      assert Flat(m, prices)[0] == Listed(m, q)[0] == Public(q[0], m.entries[q[0]]);
      QuantityConcat(Listed(m, q), Flat(m, prices[1..]), p);
      QuantityAbsent(Flat(m, prices[1..]), p);
      QuantityListed(m, p, q);
    }
  }

  /** The best of a book: its first price and the total of that level. */
  lemma BestOfBook(side: Direction, orders: seq<HalfBooks.Resting>)
    ensures BestOf(Resting(side, orders)) ==
            if orders == [] then (0, 0)
            else (DEFAULT_PRICE_BAND.ToPrice(orders[0].tick),
                  HalfBooks.SumAt(orders, orders[0].tick) % QUANTITY_MODULUS)
  {
    if orders != [] {
      QuantityResting(side, orders, orders[0].tick);
    }
  }

  lemma LaterPrices(m: Mirror, side: Direction, prices: seq<int>)
    requires MirrorOk(m) && SortedPrices(side, prices) && prices != [] && forall p :: p in prices ==> p in m.queues
    ensures forall x :: x in Flat(m, prices[1..]) ==> x.entry.price != prices[0]
  {
    assert forall i, j :: 0 <= i < j < |prices[1..]| ==> Better(side, prices[1..][i], prices[1..][j]);
    FlatOrdered(m, side, prices[1..]);
    hide MirrorOk;
    forall x | x in Flat(m, prices[1..])
      ensures x.entry.price != prices[0]
    {
      var i :| 0 <= i < |prices[1..]| && prices[1..][i] == x.entry.price;
      assert Better(side, prices[0], prices[i + 1]);
    }
  }

  // ----- the whole way -----

  /** Whatever the exchange sends can be published, update by update. */
  lemma ExchangeCanPublish(events: seq<Exchange.Event>, s: Replication.System)
    requires Exchange.Admissible(events) && s.inc < Exchange.Run(events).updates
    ensures Replication.Enabled(s, Replication.Publish(Exchange.Run(events).updates[|s.inc|]))
  {
    hide Exchange.Run, Clean, Fits, Knows;
    var us := Exchange.Run(events).updates;
    Exchange.StreamIsComplete(events);
    CleanPrefix(map[], us, |s.inc| + 1);
    assert us[..|s.inc| + 1] == s.inc + [us[|s.inc|]];
  }

  /** The mirror lists exactly the orders of the book in the order in which they will trade,
      and shows the best price and the 32-bit total of the best level of each side, zeros for a side
      without orders. */
  ghost predicate MirrorsBook(m: Mirror, b: Books.Book) {
    && Flat(m, m.bids) == Resting(BUY, b.bids.orders)
    && Flat(m, m.asks) == Resting(SELL, b.asks.orders)
    && ShowsBest(TopOfBook(m).bidPrice, TopOfBook(m).bidQuantity, b.bids.orders)
    && ShowsBest(TopOfBook(m).askPrice, TopOfBook(m).askQuantity, b.asks.orders)
  }

  ghost predicate ShowsBest(price: int, quantity: int, orders: seq<HalfBooks.Resting>) {
    if orders == [] then price == 0 && quantity == 0
    else
      && price == DEFAULT_PRICE_BAND.ToPrice(orders[0].tick)
      && quantity == HalfBooks.SumAt(orders, orders[0].tick) % QUANTITY_MODULUS
  }

  /** The mirror lists both sides of a market and shows the best of each. */
  ghost predicate MirrorsMarket(m: Mirror, market: Market, symbol: nat) {
    && IsListing(market, symbol, BUY, Flat(m, m.bids)) && IsListing(market, symbol, SELL, Flat(m, m.asks))
    && Top(m, BUY) == BestOf(Flat(m, m.bids)) && Top(m, SELL) == BestOf(Flat(m, m.asks))
  }

  /** At every number. Whenever the client is not recovering, be it in the middle of the updates
      of one request, its mirror of each symbol is well formed - prices sorted, each queue in id
      order -, lists the orders live after the incrementals before the next expected one, and
      shows the best of them. There is only one such mirror: `MirrorFacts.MirrorIsDetermined`. */
  lemma MirrorIsMarket(actions: seq<Replication.Action>, symbol: nat) returns (m: Mirror)
    requires Replication.Possible(actions) && !Replication.Run(actions).consumer.inRecovery && symbol < MAX_SYMBOLS
    ensures MirrorAfter(Replication.Run(actions).consumer.emitted, symbol, m) && MirrorOk(m)
    ensures var s := Replication.Run(actions);
            && 1 <= s.consumer.nextExp <= |s.inc| + 1
            && MirrorsMarket(m, Replication.MarketAt(s.inc, s.consumer.nextExp - 1), symbol)
  {
    hide Replication.Run, MirrorOk, ShowsMarket, Sound, Flat, MirrorAfter, Top, IsListing, BestOf;
    var s := Replication.Run(actions);
    Replication.RecoveryIsExact(actions);
    Replication.ForwardedIsSound(actions);
    m := MirrorFollowsStream(s.consumer.emitted, symbol);
    var market := Replay(map[], s.consumer.emitted);
    FlatIsListing(m, market, symbol, BUY);
    FlatIsListing(m, market, symbol, SELL);
    TopIsBest(m, BUY);
    TopIsBest(m, SELL);
  }

  /** Queue order survives replication. Take any run of the exchange and any schedule of
      losses, repetitions, reorderings and recoveries. Whenever the client is not recovering
      and has reached the number of the last update of the `k`th request, its mirror of each
      symbol lists exactly the orders that rested in the exchange's book after that request,
      in the order in which they will trade, and its best bid and offer are the book's. */
  lemma MirrorIsBook(events: seq<Exchange.Event>, k: nat, actions: seq<Replication.Action>, symbol: nat)
    returns (m: Mirror)
    requires Exchange.Admissible(events) && k <= |events| && symbol < MAX_SYMBOLS
    requires Replication.Possible(actions) && !Replication.Run(actions).consumer.inRecovery
    requires Replication.Run(actions).inc <= Exchange.Run(events).updates
    requires Replication.Run(actions).consumer.nextExp == |Exchange.Run(events[..k]).updates| + 1
    ensures MirrorAfter(Replication.Run(actions).consumer.emitted, symbol, m)
    ensures MirrorsBook(m, Exchange.Run(events[..k]).books[symbol])
  {
    hide Replication.Run, Exchange.Run, MirrorOk, Clean, Knows, Books.Invariant, Flat, MirrorAfter, Top;
    hide HalfBooks.SumAt, IsListing, BestOf;
    var s, us := Replication.Run(actions), Exchange.Run(events[..k]).updates;
    m := MirrorIsMarket(actions, symbol);
    Exchange.UpdatesGrow(events, k);
    Exchange.AdmissiblePrefix(events, k);
    Exchange.StreamIsComplete(events[..k]);
    assert s.inc[..|us|] == us by {
      assert s.inc == Exchange.Run(events).updates[..|s.inc|];
    }
    BookIsShown(m, Replay(map[], us), symbol, Exchange.Run(events[..k]).books[symbol]);
  }

  lemma BookIsShown(m: Mirror, market: Market, symbol: nat, b: Books.Book)
    requires MirrorsMarket(m, market, symbol) && Knows(market, symbol, b) && Books.Invariant(b)
    ensures MirrorsBook(m, b)
  {
    hide IsListing, Knows, Books.Invariant, Flat, Top, BestOf, HalfBooks.SumAt, Resting;
    RestingIsListing(market, symbol, b, BUY);
    RestingIsListing(market, symbol, b, SELL);
    ListingIsUnique(market, symbol, BUY, Flat(m, m.bids), Resting(BUY, b.bids.orders));
    ListingIsUnique(market, symbol, SELL, Flat(m, m.asks), Resting(SELL, b.asks.orders));
    BestOfBook(BUY, b.bids.orders);
    BestOfBook(SELL, b.asks.orders);
  }
}
