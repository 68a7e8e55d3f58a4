/** When the synthesizer survives a run of the exchange: its message pool is one for all
    symbols, while market order ids are counted per symbol. */
module SynthesizerRuns {
  import opened Types
  import opened PriceBands
  import opened HalfBooks
  import opened Books
  import opened BookFacts
  import opened Markets
  import opened BookStreams
  import opened ExchangeRuns
  import opened Snapshots
  import opened SnapshotSynthesizers
  import MemPools
  import Replication = Replications

  // ----- the picture -----

  /** The pool has a slot for update number n + 1, if it needs one. */
  ghost predicate FindsSlot(us: seq<Update>, n: nat)
    requires n < |us|
  {
    us[n].kind == ADD ==> |Replication.MarketAt(us, n)| < MAX_ORDER_IDS
  }

  /** No assertion fires on update number n + 1. */
  ghost predicate Survives(us: seq<Update>, n: nat)
    requires n < |us|
  {
    Accepts(AbsorbAll(us[..n]), n, Packet(n + 1, us[n]))
  }

  /** After every incremental the stored messages picture the market, so each cycle that is
      published is the complete snapshot at its anchor; an assertion can only fire for want
      of a slot. */
  lemma {:induction false} SynthesizerPictures(events: seq<Event>, n: nat)
    requires Admissible(events) && n <= |Run(events).updates|
    ensures var us := Run(events).updates;
            && Pictures(AbsorbAll(us[..n]), Replication.MarketAt(us, n))
            && (n < |us| ==> (Survives(us, n) <==> FindsSlot(us, n)))
    decreases n
  {
    hide Run, Clean, Fits, Absorb, Accepts, Pictures, News, Acceptable, AllKnown;
    var us := Run(events).updates;
    StreamIsComplete(events);
    if n == 0 {
      NothingStored(us);
    } else {
      SynthesizerPictures(events, n - 1);
      assert us[..n] == us[..n - 1] + [us[n - 1]] && us[..n][..n - 1] == us[..n - 1];
      ReplayOne(map[], us[..n - 1], us[n - 1]);
      AbsorbNext(us, n - 1);
    }
    if n < |us| {
      AbsorbNext(us, n);
    }
  }

  lemma NothingStored(us: seq<Update>)
    ensures Pictures(AbsorbAll(us[..0]), Replication.MarketAt(us, 0))
  {
  }

  lemma AbsorbNext(us: seq<Update>, n: nat)
    requires Clean(map[], us) && n < |us| && Pictures(AbsorbAll(us[..n]), Replication.MarketAt(us, n))
    ensures Survives(us, n) <==> FindsSlot(us, n)
    ensures Pictures(Absorb(AbsorbAll(us[..n]), us[n]), Apply(Replication.MarketAt(us, n), us[n]))
  {
    hide Clean, Fits, Absorb, Accepts, Pictures, Regular, Addressable, AbsorbAll;
    CleanPrefix(map[], us, n);
    Replication.MarketIsRegular(us, n);
    Replication.RegularParts(Replication.MarketAt(us, n));
    AbsorbPictures(AbsorbAll(us[..n]), Replication.MarketAt(us, n), n, Packet(n + 1, us[n]));
  }

  // ----- how many orders rest -----

  ghost function OrdersIn(b: Book): nat {
    |b.bids.orders| + |b.asks.orders|
  }

  /** The orders that rest in all the books together. */
  ghost function RestingIn(books: seq<Book>): nat {
    if books == [] then 0 else RestingIn(books[..|books| - 1]) + OrdersIn(books[|books| - 1])
  }

  ghost function Keys(symbol: nat, orders: seq<Resting>): (keys: seq<OrderKey>)
    ensures |keys| == |orders| && forall i :: 0 <= i < |keys| ==> keys[i] == (symbol, orders[i].marketOrderId)
  {
    seq(|orders|, i requires 0 <= i < |orders| => (symbol, orders[i].marketOrderId))
  }

  ghost function OfSymbol(m: Market, symbol: nat): set<OrderKey> {
    set key | key in m.Keys && key.0 == symbol
  }

  ghost function Below(m: Market, n: nat): set<OrderKey> {
    set key | key in m.Keys && key.0 < n
  }

  /** A market that knows a book has as many orders of its symbol as rest in the book. */
  lemma SymbolSize(m: Market, symbol: nat, b: Book)
    requires Knows(m, symbol, b) && Invariant(b)
    ensures |OfSymbol(m, symbol)| == OrdersIn(b)
  {
    hide Knows, Invariant;
    var keys := Keys(symbol, b.bids.orders) + Keys(symbol, b.asks.orders);
    DistinctKeys(symbol, b);
    MemPools.DistinctCardinality(keys);
    forall key
      ensures key in OfSymbol(m, symbol) <==> key in keys
    {
      SameKeys(m, symbol, b, key);
    }
    assert OfSymbol(m, symbol) == set key | key in keys;
  }

  lemma DistinctKeys(symbol: nat, b: Book)
    requires Invariant(b)
    ensures var keys := Keys(symbol, b.bids.orders) + Keys(symbol, b.asks.orders);
            forall i, j :: 0 <= i < j < |keys| ==> keys[i] != keys[j]
  {
    hide WellFormed, Positive, IndexSound;
  }

  lemma SameKeys(m: Market, symbol: nat, b: Book, key: OrderKey)
    requires Knows(m, symbol, b)
    ensures key in OfSymbol(m, symbol) <==> key in Keys(symbol, b.bids.orders) + Keys(symbol, b.asks.orders)
  {
    var bids, asks := b.bids.orders, b.asks.orders;
    var keys := Keys(symbol, bids) + Keys(symbol, asks);
    if key in OfSymbol(m, symbol) {
      if HasId(bids, key.1) {
        var i :| 0 <= i < |bids| && bids[i].marketOrderId == key.1;
        assert keys[i] == key;
      } else {
        var i :| 0 <= i < |asks| && asks[i].marketOrderId == key.1;
        assert keys[|bids| + i] == key;
      }
    }
    if key in keys {
      var i :| 0 <= i < |keys| && keys[i] == key;
      if i < |bids| {
        assert ShowsOrder(m, symbol, BUY, bids[i]);
      } else {
        assert ShowsOrder(m, symbol, SELL, asks[i - |bids|]);
      }
    }
  }

  lemma {:induction false} SizeBelow(m: Market, books: seq<Book>, n: nat)
    requires n <= |books|
    requires forall s :: 0 <= s < n ==> Knows(m, s, books[s]) && Invariant(books[s])
    ensures |Below(m, n)| == RestingIn(books[..n])
  {
    hide Knows, Invariant;
    if n == 0 {
      assert Below(m, 0) == {};
    } else {
      SizeBelow(m, books, n - 1);
      SymbolSize(m, n - 1, books[n - 1]);
      assert books[..n][..n - 1] == books[..n - 1];
      assert Below(m, n) == Below(m, n - 1) + OfSymbol(m, n - 1);
      assert Below(m, n - 1) !! OfSymbol(m, n - 1);
    }
  }

  /** The stream shows as many live orders as rest. */
  lemma MarketSize(events: seq<Event>)
    requires Admissible(events)
    ensures |Replay(map[], Run(events).updates)| == RestingIn(Run(events).books)
  {
    hide Run, News, Acceptable, Clean, Knows, Invariant, RestingIn, Regular;
    var e := Run(events);
    var m := Replay(map[], e.updates);
    StreamIsComplete(events);
    SizeBelow(m, e.books, MAX_SYMBOLS);
    assert e.books[..MAX_SYMBOLS] == e.books;
    Replication.MarketIsRegular(e.updates, |e.updates|);
    assert e.updates[..|e.updates|] == e.updates;
    AllBelow(m);
  }

  lemma AllBelow(m: Market)
    requires Regular(m)
    ensures |Below(m, MAX_SYMBOLS)| == |m|
  {
    assert Below(m, MAX_SYMBOLS) == m.Keys;
  }

  // ----- one request -----

  /** Only the last update of a request can add an order. */
  ghost predicate AddIsLast(us: seq<Update>) {
    forall i :: 0 <= i < |us| - 1 ==> us[i].kind != ADD
  }

  lemma {:induction false} MatchAddsNothing(cfg: Config, t: Taker, h: Half, index: map<Key, nat>)
    requires TicksOk(h)
    ensures forall u :: u in Match(cfg, t, h, index).updates ==> u.kind != ADD
    decreases t.quantity + |h.orders|
  {
    hide FillFirst;
    if CanTrade(t, h) {
      MatchUnfold(cfg, t, h, index);
      FillAddsNothing(cfg, t, h, index);
      var first := FillFirst(cfg, t, h, index);
      MatchAddsNothing(cfg, t.(quantity := first.left), first.half, first.index);
    } else {
      MatchNothing(map[], cfg, t, h, index);
    }
  }

  lemma FillAddsNothing(cfg: Config, t: Taker, h: Half, index: map<Key, nat>)
    requires h.orders != [] && |h.nextPriority| == TICK_COUNT && 0 <= h.orders[0].tick < TICK_COUNT
    ensures forall u :: u in FillFirst(cfg, t, h, index).updates ==> u.kind != ADD
  {
    hide RemoveAt;
  }

  lemma StepAddsLast(cfg: Config, b: Book, r: Request)
    requires cfg.band.IsValid() && Acceptable(cfg, r) && BookTicksOk(b)
    ensures AddIsLast(Step(cfg, b, r).updates)
  {
    hide Match, Insert, RemoveAt, Position;
    if r.New? {
      PriceOfTick(cfg.band, r.price);
      var t := Taker(r.clientId, r.clientOrderId, b.nextId, r.side, cfg.band.ToTick(r.price), r.quantity);
      var h := HalfOf(b, Opposite(r.side));
      MatchAddsNothing(cfg, t, h, b.index);
      var us := Match(cfg, t, h, b.index).updates;
      assert forall i :: 0 <= i < |us| ==> us[i] in us;
    }
  }

  /** An update that is no ADD leaves no more orders than there were. */
  lemma NotMore(m: Market, u: Update)
    requires u.kind != ADD
    ensures |Apply(m, u)| <= |m|
  {
    assert Apply(m, u).Keys <= m.Keys;
    MemPools.SubsetCardinality(Apply(m, u).Keys, m.Keys);
    assert |Apply(m, u)| == |Apply(m, u).Keys| && |m| == |m.Keys|;
  }

  lemma {:induction false} NeverMore(m: Market, us: seq<Update>)
    requires forall i :: 0 <= i < |us| ==> us[i].kind != ADD
    ensures |Replay(m, us)| <= |m|
    decreases |us|
  {
    if us == [] {
    } else {
      NotMore(m, us[0]);
      NeverMore(Apply(m, us[0]), us[1..]);
    }
  }

  lemma OneMore(m: Market, u: Update)
    requires u.kind == ADD && Fits(m, u)
    ensures |Apply(m, u)| == |m| + 1
  {
    var key := (u.symbol, u.orderId);
    assert key !in m;
    assert Apply(m, u).Keys == m.Keys + {key};
    assert |Apply(m, u)| == |Apply(m, u).Keys| && |m| == |m.Keys|;
  }

  /** There is room for everything a request adds to a market of `m`. */
  ghost predicate RoomFor(m: Market, us: seq<Update>) {
    forall i :: 0 <= i < |us| && us[i].kind == ADD ==> |Replay(m, us[..i])| < MAX_ORDER_IDS
  }

  /** There is room exactly when no more orders than slots are live after the request. */
  lemma RoomForStep(m: Market, us: seq<Update>)
    requires Clean(m, us) && AddIsLast(us) && |m| <= MAX_ORDER_IDS
    ensures RoomFor(m, us) <==> |Replay(m, us)| <= MAX_ORDER_IDS
  {
    hide Clean, Fits, Apply;
    if us != [] {
      var last := |us| - 1;
      var m1 := Replay(m, us[..last]);
      assert us == us[..last] + [us[last]];
      NeverMore(m, us[..last]);
      ReplayOne(m, us[..last], us[last]);
      CleanPrefix(m, us, last);
      if us[last].kind == ADD {
        OneMore(m1, us[last]);
      } else {
        NotMore(m1, us[last]);
      }
    }
  }

  // ----- whole runs -----

  ghost predicate AlwaysRoom(us: seq<Update>) {
    forall n :: 0 <= n < |us| ==> FindsSlot(us, n)
  }

  /** After no request do more orders rest, in all the books together, than the pool has slots. */
  ghost predicate RestWithinPool(events: seq<Event>)
    requires InContract(events)
  {
    && RestingIn(Run(events).books) <= MAX_ORDER_IDS
    && (events == [] || RestWithinPool(events[..|events| - 1]))
  }

  lemma AlwaysRoomConcat(us: seq<Update>, more: seq<Update>)
    ensures AlwaysRoom(us + more) <==> AlwaysRoom(us) && RoomFor(Replay(map[], us), more)
  {
    var all := us + more;
    forall n | 0 <= n < |us|
      ensures FindsSlot(all, n) <==> FindsSlot(us, n)
    {
      assert all[..n] == us[..n];
    }
    forall i | 0 <= i < |more|
      ensures FindsSlot(all, |us| + i) <==>
                (more[i].kind == ADD ==> |Replay(Replay(map[], us), more[..i])| < MAX_ORDER_IDS)
    {
      assert all[..|us| + i] == us + more[..i];
      ReplayConcat(map[], us, more[..i]);
    }
    if AlwaysRoom(us) && RoomFor(Replay(map[], us), more) {
      forall n | 0 <= n < |all|
        ensures FindsSlot(all, n)
      {
        if n >= |us| {
          assert FindsSlot(all, |us| + (n - |us|));
        }
      }
    }
    if AlwaysRoom(all) {
      forall i | 0 <= i < |more| && more[i].kind == ADD
        ensures |Replay(Replay(map[], us), more[..i])| < MAX_ORDER_IDS
      {
        assert FindsSlot(all, |us| + i);
      }
    }
  }

  /** What the last request adds to the stream. */
  lemma LastStep(events: seq<Event>) returns (more: seq<Update>)
    requires Admissible(events) && events != []
    ensures Admissible(events[..|events| - 1])
    ensures Run(events).updates == Run(events[..|events| - 1]).updates + more && AddIsLast(more)
    ensures Clean(Replay(map[], Run(events[..|events| - 1]).updates), more)
  {
    hide Clean, Invariant, Acceptable, Step, Knows, AllKnown, News;
    var n := |events| - 1;
    AdmissiblePrefix(events, n);
    var before := Run(events[..n]);
    var s, r := events[n].symbol, events[n].request;
    more := SafeStep(s, before.books[s], r).updates;
    StepAddsLast(ConfigOf(s), before.books[s], r);
    StreamIsComplete(events);
    Replication.CleanSuffix(map[], before.updates, more);
  }

  lemma {:induction false} RoomExactly(events: seq<Event>)
    requires Admissible(events)
    ensures AlwaysRoom(Run(events).updates) <==> RestWithinPool(events)
    decreases |events|
  {
    hide Run, AlwaysRoom, RoomFor, RestingIn, Clean, News, Acceptable;
    if events == [] {
      NothingRests();
    } else {
      var n := |events| - 1;
      var more := LastStep(events);
      RoomExactly(events[..n]);
      var us := Run(events[..n]).updates;
      AlwaysRoomConcat(us, more);
      MarketSize(events[..n]);
      MarketSize(events);
      ReplayConcat(map[], us, more);
      if RestWithinPool(events[..n]) {
        RoomForStep(Replay(map[], us), more);
      }
    }
  }

  lemma NothingRests()
    ensures Run([]).updates == [] && AlwaysRoom([]) && RestWithinPool([])
  {
    NothingIn(EmptyExchange().books);
  }

  lemma {:induction false} NothingIn(books: seq<Book>)
    requires forall i :: 0 <= i < |books| ==> OrdersIn(books[i]) == 0
    ensures RestingIn(books) == 0
  {
    if books == [] {
    } else {
      NothingIn(books[..|books| - 1]);
    }
  }

  /** Whatever the exchange sends, no assertion of the synthesizer ever fires if and only if
      at no time more orders rest, in the books of all symbols together, than one book has
      order ids. */
  lemma SynthesizerNeverFails(events: seq<Event>)
    requires Admissible(events)
    ensures var us := Run(events).updates;
            (forall n :: 0 <= n < |us| ==> Survives(us, n)) <==> RestWithinPool(events)
  {
    hide Run, RestWithinPool, FindsSlot, Survives, News, Acceptable, Pictures;
    var us := Run(events).updates;
    forall n | 0 <= n < |us|
      ensures Survives(us, n) <==> FindsSlot(us, n)
    {
      SynthesizerPictures(events, n);
    }
    RoomExactly(events);
  }

  // ----- a run that ends the process -----

  /** `n` bids of one unit at price 0, in turn for the first two symbols. */
  function Filling(n: nat): (events: seq<Event>)
    ensures |events| == n
  {
    if n == 0 then []
    else Filling(n - 1) + [Event((n - 1) % 2, New(0, (n - 1) / 2, BUY, 0, 1))]
  }

  ghost predicate NoAsks(e: Exchange) {
    forall s :: 0 <= s < |e.books| ==> e.books[s].asks.orders == []
  }

  lemma {:induction false} FillingInContract(n: nat)
    requires n <= 2 * MAX_ORDER_IDS
    ensures InContract(Filling(n))
  {
    if n == 0 {
    } else {
      FillingInContract(n - 1);
      assert DEFAULT_PRICE_BAND.IsValid() && DEFAULT_PRICE_BAND.InBand(0);
    }
  }

  lemma {:induction false} FillingNews(n: nat, symbol: nat)
    ensures News(Filling(n), symbol) == if symbol == 0 then (n + 1) / 2 else if symbol == 1 then n / 2 else 0
  {
    if n == 0 {
    } else {
      FillingNews(n - 1, symbol);
      assert Filling(n)[..n - 1] == Filling(n - 1);
    }
  }

  /** A bid that meets no ask rests. */
  lemma BidRests(cfg: Config, b: Book, r: Request)
    requires cfg.band.IsValid() && Acceptable(cfg, r) && BookTicksOk(b)
    requires r.New? && r.side == BUY && b.asks.orders == []
    ensures var b' := Step(cfg, b, r).book; b'.asks.orders == [] && OrdersIn(b') == OrdersIn(b) + 1
  {
    PriceOfTick(cfg.band, r.price);
  }

  lemma {:induction false} RestingUpdate(books: seq<Book>, s: nat, b: Book)
    requires s < |books| && OrdersIn(b) == OrdersIn(books[s]) + 1
    ensures RestingIn(books[s := b]) == RestingIn(books) + 1
  {
    var n := |books| - 1;
    if s == n {
      assert books[s := b][..n] == books[..n];
    } else {
      RestingUpdate(books[..n], s, b);
      assert books[s := b][..n] == books[..n][s := b];
    }
  }

  lemma BidServed(e: Exchange, event: Event)
    requires BooksOk(e) && event.symbol < MAX_SYMBOLS && Acceptable(ConfigOf(event.symbol), event.request)
    requires NoAsks(e) && event.request.New? && event.request.side == BUY
    ensures NoAsks(Serve(e, event)) && RestingIn(Serve(e, event).books) == RestingIn(e.books) + 1
  {
    hide Step, Invariant, Acceptable, BookTicksOk, RestingIn, OrdersIn;
    var last := SafeStep(event.symbol, e.books[event.symbol], event.request);
    BidRests(ConfigOf(event.symbol), e.books[event.symbol], event.request);
    RestingUpdate(e.books, event.symbol, last.book);
  }

  lemma EmptyRests()
    ensures NoAsks(EmptyExchange()) && RestingIn(EmptyExchange().books) == 0
  {
    NothingIn(EmptyExchange().books);
  }

  lemma {:induction false} FillingRests(n: nat)
    requires n <= 2 * MAX_ORDER_IDS && InContract(Filling(n))
    ensures NoAsks(Run(Filling(n))) && RestingIn(Run(Filling(n)).books) == n
  {
    hide Invariant, Acceptable, RestingIn, Serve, NoAsks;
    if n == 0 {
      EmptyRests();
    } else {
      FillingInContract(n - 1);
      FillingRests(n - 1);
      assert Filling(n)[..n - 1] == Filling(n - 1);
      BidServed(Run(Filling(n - 1)), Filling(n)[n - 1]);
    }
  }

  /** With two symbols that share the pool it can run out while both have order ids left: any
      such run longer than the pool is admissible, and some assertion fires in it. */
  lemma SynthesizerCanFail(n: nat) returns (k: nat)
    requires MAX_ORDER_IDS < n < 2 * MAX_ORDER_IDS - 1
    ensures Admissible(Filling(n))
    ensures k < |Run(Filling(n)).updates| && !Survives(Run(Filling(n)).updates, k)
  {
    hide Run, Survives, Filling, RestingIn, Acceptable, News;
    FillingInContract(n);
    forall s: nat | s < MAX_SYMBOLS
      ensures News(Filling(n), s) < MAX_ORDER_IDS
    {
      FillingNews(n, s);
    }
    FillingRests(n);
    SynthesizerNeverFails(Filling(n));
    assert !RestWithinPool(Filling(n));
    k :| 0 <= k < |Run(Filling(n)).updates| && !Survives(Run(Filling(n)).updates, k);
  }
}
