/** Whole runs of the exchange: any requests, for any of its symbols, in any order. */
module ExchangeRuns {
  import opened Types
  import opened PriceBands
  import opened HalfBooks
  import opened Books
  import opened BookFacts
  import opened BookStreams
  import opened BookLedgers
  import opened BookIndexes
  import opened Markets

  // ----- one book -----

  function ConfigOf(symbol: nat): Config {
    Config(symbol, DEFAULT_PRICE_BAND)
  }

  predicate AllAcceptable(symbol: nat, requests: seq<Request>) {
    forall i :: 0 <= i < |requests| ==> Acceptable(ConfigOf(symbol), requests[i])
  }

  /** A step from a book that satisfies the invariant leads to another such book. */
  ghost function SafeStep(symbol: nat, b: Book, r: Request): (o: Outcome)
    requires Invariant(b) && Acceptable(ConfigOf(symbol), r)
    ensures BookTicksOk(b) && o == Step(ConfigOf(symbol), b, r)
    ensures Invariant(o.book) && o.book.nextId == b.nextId + (if r.New? then 1 else 0)
  {
    StepKeeps(ConfigOf(symbol), b, r);
    StepCounts(ConfigOf(symbol), b, r);
    Step(ConfigOf(symbol), b, r)
  }

  lemma StepCounts(cfg: Config, b: Book, r: Request)
    requires cfg.band.IsValid() && Acceptable(cfg, r) && BookTicksOk(b)
    ensures Step(cfg, b, r).book.nextId == b.nextId + (if r.New? then 1 else 0)
  {
    hide Match, Insert, RemoveAt, Position;
  }

  /** The book after `requests`, with every report and update sent on the way. */
  ghost function RunBook(symbol: nat, requests: seq<Request>): (o: Outcome)
    requires AllAcceptable(symbol, requests)
    ensures Invariant(o.book)
    decreases |requests|
  {
    if requests == [] then Outcome(EmptyBook(), [], [])
    else
      var n := |requests| - 1;
      var before := RunBook(symbol, requests[..n]);
      var last := SafeStep(symbol, before.book, requests[n]);
      Outcome(last.book, before.responses + last.responses, before.updates + last.updates)
  }

  /** Over any run: all quantity ever accepted has been traded (once for each side of the
      trade), has been withdrawn, or still rests. */
  lemma {:induction false} QuantityIsConserved(symbol: nat, requests: seq<Request>)
    requires AllAcceptable(symbol, requests)
    ensures var run := RunBook(symbol, requests);
            Reported(ACCEPTED, run.responses)
            == 2 * TradedQuantity(run.updates) + Reported(CANCELED, run.responses) + BookQuantity(run.book)
    decreases |requests|
  {
    hide Step, Invariant, Acceptable, BookTicksOk;
    if requests == [] {
    } else {
      var n := |requests| - 1;
      QuantityIsConserved(symbol, requests[..n]);
      var before := RunBook(symbol, requests[..n]);
      var last := SafeStep(symbol, before.book, requests[n]);
      StepConserves(ConfigOf(symbol), before.book, requests[n]);
      ReportedConcat(ACCEPTED, before.responses, last.responses);
      ReportedConcat(CANCELED, before.responses, last.responses);
      TradedConcat(before.updates, last.updates);
    }
  }

  /** Over any run: the reports about each order are one ACCEPTED, then fills that each take
      from what was left, then at most one CANCELED for what was left; nothing follows a
      CANCELED or a fill that leaves nothing. */
  lemma {:induction false} EveryLifeIsLawful(symbol: nat, requests: seq<Request>)
    requires AllAcceptable(symbol, requests)
    ensures var run := RunBook(symbol, requests);
            && AllLawful(map[], 1, run.responses)
            && Follows(RecordAll(map[], run.responses), run.book)
            && run.book.nextId == 1 + Accepts(run.responses)
    decreases |requests|
  {
    hide Step, Invariant, Acceptable, BookTicksOk, Follows, Lawful, Record;
    if requests == [] {
      EmptyLife();
    } else {
      var n := |requests| - 1;
      EveryLifeIsLawful(symbol, requests[..n]);
      var before := RunBook(symbol, requests[..n]);
      var ledger := RecordAll(map[], before.responses);
      StepLawful(ledger, ConfigOf(symbol), before.book, requests[n]);
      var last := SafeStep(symbol, before.book, requests[n]);
      LawfulConcat(map[], 1, before.responses, last.responses);
    }
  }

  lemma EmptyLife()
    ensures AllLawful(map[], 1, []) && RecordAll(map[], []) == map[] && Accepts([]) == 0
    ensures Follows(map[], EmptyBook())
  {
  }

  /** No new order of client `c` takes the client order id of one of its orders that still rests. */
  ghost predicate FreshKeys(symbol: nat, requests: seq<Request>, c: nat)
    requires AllAcceptable(symbol, requests)
  {
    forall n :: 0 <= n < |requests| && requests[n].New? && requests[n].clientId == c ==>
      KeyIsFree(RunBook(symbol, requests[..n]).book, (requests[n].clientId, requests[n].clientOrderId))
  }

  /** As long as a client does not reuse live ids, a cancel reaches each of its resting orders,
      whatever ids the other clients use. */
  lemma {:induction false} EveryOrderIsFound(symbol: nat, requests: seq<Request>, c: nat)
    requires AllAcceptable(symbol, requests) && FreshKeys(symbol, requests, c)
    ensures IndexComplete(RunBook(symbol, requests).book, c)
    decreases |requests|
  {
    hide Step, Invariant, Acceptable, BookTicksOk, IndexComplete, KeyIsFree;
    if requests == [] {
      EmptyComplete(c);
    } else {
      var n := |requests| - 1;
      forall k | 0 <= k < n && requests[..n][k].New? && requests[..n][k].clientId == c
        ensures KeyIsFree(RunBook(symbol, requests[..n][..k]).book,
                          (requests[..n][k].clientId, requests[..n][k].clientOrderId))
      {
        assert requests[..n][..k] == requests[..k];
      }
      EveryOrderIsFound(symbol, requests[..n], c);
      var before := RunBook(symbol, requests[..n]);
      var last := SafeStep(symbol, before.book, requests[n]);
      StepComplete(ConfigOf(symbol), before.book, requests[n], c);
    }
  }

  lemma EmptyComplete(c: nat)
    ensures IndexComplete(EmptyBook(), c)
  {
  }

  // ----- a reused id -----

  /** There are `n` orders, all under one client and client order id. */
  predicate AllUnder(orders: seq<Resting>, key: Key, n: nat) {
    |orders| == n && forall i :: 0 <= i < n ==> KeyOf(orders[i]) == key
  }

  lemma OneMoreRequest(symbol: nat, requests: seq<Request>, r: Request)
    requires AllAcceptable(symbol, requests) && Acceptable(ConfigOf(symbol), r)
    ensures AllAcceptable(symbol, requests + [r])
    ensures var b := RunBook(symbol, requests).book;
            BookTicksOk(b) && RunBook(symbol, requests + [r]).book == Step(ConfigOf(symbol), b, r).book
  {
    hide Step, Invariant, Acceptable, BookTicksOk;
    assert (requests + [r])[..|requests|] == requests;
    var last := SafeStep(symbol, RunBook(symbol, requests).book, r);
  }

  /** A new order that meets nobody rests, and the index leads to it. */
  lemma NewRests(cfg: Config, b: Book, r: Request, n: nat)
    requires cfg.band.IsValid() && Acceptable(cfg, r) && BookTicksOk(b) && r.New?
    requires HalfOf(b, Opposite(r.side)).orders == []
    requires AllUnder(HalfOf(b, r.side).orders, (r.clientId, r.clientOrderId), n)
    ensures var b' := Step(cfg, b, r).book;
            && HalfOf(b', Opposite(r.side)).orders == []
            && AllUnder(HalfOf(b', r.side).orders, (r.clientId, r.clientOrderId), n + 1)
            && (r.clientId, r.clientOrderId) in b'.index
  {
    PriceOfTick(cfg.band, r.price);
  }

  /** Reuse of a live id, on any input: after the same new order twice the index no longer finds
      both, and one cancel later an order rests that no cancel reaches. */
  lemma ReuseLosesOrder(symbol: nat, r: Request)
    requires r.New? && Acceptable(ConfigOf(symbol), r)
    ensures var twice, k := [r, r], Cancel(r.clientId, r.clientOrderId);
            && AllAcceptable(symbol, twice) && !IndexComplete(RunBook(symbol, twice).book, r.clientId)
            && AllAcceptable(symbol, twice + [k])
            && var b := RunBook(symbol, twice + [k]).book;
               (r.clientId, r.clientOrderId) !in b.index
               && AllUnder(HalfOf(b, r.side).orders, (r.clientId, r.clientOrderId), 1)
  {
    hide RunBook, Step, Invariant, BookTicksOk, IndexComplete;
    var cfg, k := ConfigOf(symbol), Cancel(r.clientId, r.clientOrderId);
    EmptyRun(symbol);
    OneMoreRequest(symbol, [], r);
    NewRests(cfg, EmptyBook(), r, 0);
    assert [] + [r] == [r] && [r] + [r] == [r, r];
    OneMoreRequest(symbol, [r], r);
    NewRests(cfg, RunBook(symbol, [r]).book, r, 1);
    TwoUnderOneKey(RunBook(symbol, [r, r]).book, r.side, (r.clientId, r.clientOrderId));
    OneMoreRequest(symbol, [r, r], k);
    CancelTakesOne(cfg, RunBook(symbol, [r, r]).book, r.side, k, 1);
  }

  lemma EmptyRun(symbol: nat)
    ensures AllAcceptable(symbol, []) && RunBook(symbol, []).book == EmptyBook()
  {
  }

  lemma TwoUnderOneKey(b: Book, side: Direction, key: Key)
    requires Invariant(b) && AllUnder(HalfOf(b, side).orders, key, 2)
    ensures !IndexComplete(b, key.0)
  {
    hide WellFormed, IndexSound, Apart;
    var orders := HalfOf(b, side).orders;
    assert orders[0].marketOrderId != orders[1].marketOrderId;
    assert !FoundOrder(b.index, orders[0]) || !FoundOrder(b.index, orders[1]);
  }

  lemma CancelTakesOne(cfg: Config, b: Book, side: Direction, k: Request, n: nat)
    requires cfg.band.IsValid() && k.Cancel? && Acceptable(cfg, k) && Invariant(b) && BookTicksOk(b)
    requires AllUnder(HalfOf(b, side).orders, (k.clientId, k.clientOrderId), n + 1)
    requires HalfOf(b, Opposite(side)).orders == [] && (k.clientId, k.clientOrderId) in b.index
    ensures var b' := Step(cfg, b, k).book;
            && AllUnder(HalfOf(b', side).orders, (k.clientId, k.clientOrderId), n)
            && (k.clientId, k.clientOrderId) !in b'.index
  {
    hide Invariant, CancelOrder, RemoveFrom, BookTicksOk, AllUnder;
    var key := (k.clientId, k.clientOrderId);
    var i := CancelHits(cfg, b, side, key);
    RemovedUnder(cfg, b, side, i, key, n);
  }

  lemma CancelHits(cfg: Config, b: Book, side: Direction, key: Key) returns (i: nat)
    requires Invariant(b) && BookTicksOk(b) && key in b.index && HalfOf(b, Opposite(side)).orders == []
    ensures i < |HalfOf(b, side).orders| && CancelOrder(cfg, b, key.0, key.1) == RemoveFrom(cfg, b, side, i)
  {
    IndexLeads(b, key);
    hide Invariant, RemoveFrom, BookTicksOk, Position;
    i := Position(HalfOf(b, side).orders, b.index[key]);
  }

  lemma RemovedUnder(cfg: Config, b: Book, side: Direction, i: nat, key: Key, n: nat)
    requires BookTicksOk(b) && i < |HalfOf(b, side).orders| && AllUnder(HalfOf(b, side).orders, key, n + 1)
    ensures var b' := RemoveFrom(cfg, b, side, i).book;
            AllUnder(HalfOf(b', side).orders, key, n) && key !in b'.index
  {
    hide HasTick;
  }

  // ----- all symbols -----

  datatype Event = Event(symbol: nat, request: Request)

  /** Every request is for a symbol of the exchange and obeys the contract of its book. */
  predicate InContract(events: seq<Event>) {
    forall i :: 0 <= i < |events| ==>
      events[i].symbol < MAX_SYMBOLS && Acceptable(ConfigOf(events[i].symbol), events[i].request)
  }

  /** How many new orders a symbol gets; each uses up one of its market order ids. */
  function News(events: seq<Event>, symbol: nat): nat {
    if events == [] then 0
    else
      var n := |events| - 1;
      News(events[..n], symbol) + if events[n].symbol == symbol && events[n].request.New? then 1 else 0
  }

  /** No book runs out of market order ids. */
  predicate Admissible(events: seq<Event>) {
    InContract(events) && forall s :: 0 <= s < MAX_SYMBOLS ==> News(events, s) < MAX_ORDER_IDS
  }

  lemma {:induction false} NewsGrow(events: seq<Event>, symbol: nat, k: nat)
    requires k <= |events|
    ensures News(events[..k], symbol) <= News(events, symbol)
  {
    if k == |events| {
      assert events[..k] == events;
    } else {
      var n := |events| - 1;
      assert events[..n][..k] == events[..k];
      NewsGrow(events[..n], symbol, k);
    }
  }

  lemma AdmissiblePrefix(events: seq<Event>, k: nat)
    requires Admissible(events) && k <= |events|
    ensures Admissible(events[..k])
  {
    hide News, Acceptable;
    forall s | 0 <= s < MAX_SYMBOLS
      ensures News(events[..k], s) < MAX_ORDER_IDS
    {
      NewsGrow(events, s, k);
    }
  }

  datatype Exchange = Exchange(books: seq<Book>, updates: seq<Update>)

  ghost predicate BooksOk(e: Exchange) {
    |e.books| == MAX_SYMBOLS && forall s :: 0 <= s < MAX_SYMBOLS ==> Invariant(e.books[s])
  }

  function EmptyExchange(): Exchange {
    Exchange(seq(MAX_SYMBOLS, _ => EmptyBook()), [])
  }

  lemma EmptyBooksOk()
    ensures BooksOk(EmptyExchange())
  {
    EmptyInvariant();
  }

  /** The book of its symbol serves a request. */
  ghost function Serve(e: Exchange, event: Event): (e': Exchange)
    requires BooksOk(e) && event.symbol < MAX_SYMBOLS && Acceptable(ConfigOf(event.symbol), event.request)
    ensures BooksOk(e')
  {
    var last := SafeStep(event.symbol, e.books[event.symbol], event.request);
    Exchange(e.books[event.symbol := last.book], e.updates + last.updates)
  }

  /** The books after `events`, and the one stream of market updates they sent. */
  ghost function Run(events: seq<Event>): (e: Exchange)
    requires InContract(events)
    ensures BooksOk(e)
    decreases |events|
  {
    if events == [] then
      EmptyBooksOk();
      EmptyExchange()
    else
      Serve(Run(events[..|events| - 1]), events[|events| - 1])
  }

  /** Each book has used up as many ids as it got new orders. */
  lemma {:induction false} NewsUseIds(events: seq<Event>, symbol: nat)
    requires InContract(events) && symbol < MAX_SYMBOLS
    ensures Run(events).books[symbol].nextId == News(events, symbol) + 1
    decreases |events|
  {
    hide Invariant, Acceptable, Serve;
    if events == [] {
    } else {
      var n := |events| - 1;
      NewsUseIds(events[..n], symbol);
      ServeCounts(Run(events[..n]), events[n], symbol);
    }
  }

  lemma ServeCounts(e: Exchange, event: Event, symbol: nat)
    requires BooksOk(e) && event.symbol < MAX_SYMBOLS && Acceptable(ConfigOf(event.symbol), event.request)
    requires symbol < MAX_SYMBOLS
    ensures Serve(e, event).books[symbol].nextId
            == e.books[symbol].nextId + (if event.symbol == symbol && event.request.New? then 1 else 0)
  {
    hide Invariant, Acceptable, Step, BookTicksOk;
  }

  /** A new order that comes last finds an id left. */
  lemma IdLeft(events: seq<Event>)
    requires Admissible(events) && events != [] && events[|events| - 1].request.New?
    ensures var n := |events| - 1;
            Run(events[..n]).books[events[n].symbol].nextId < MAX_ORDER_IDS
  {
    hide Run, Acceptable;
    var n := |events| - 1;
    var symbol := events[n].symbol;
    NewsUseIds(events[..n], symbol);
    assert News(events, symbol) == News(events[..n], symbol) + 1;
  }

  /** What was sent stays sent. */
  lemma {:induction false} UpdatesGrow(events: seq<Event>, k: nat)
    requires InContract(events) && k <= |events|
    ensures Run(events[..k]).updates <= Run(events).updates
    decreases |events|
  {
    hide Invariant, Acceptable, Step, BookTicksOk, SafeStep;
    if k == |events| {
      assert events[..k] == events;
    } else {
      var n := |events| - 1;
      assert events[..n][..k] == events[..k];
      UpdatesGrow(events[..n], k);
    }
  }

  /** Replaying the updates yields exactly the resting orders of every book. */
  ghost predicate AllKnown(e: Exchange)
    requires |e.books| == MAX_SYMBOLS
  {
    forall s :: 0 <= s < MAX_SYMBOLS ==> Knows(Replay(map[], e.updates), s, e.books[s])
  }

  /** The stream of any run can be followed from nothing: each update makes sense where it
      stands, no prefix of it shows a crossed market, and replaying all of it yields exactly
      the resting orders of every book. */
  lemma {:induction false} StreamIsComplete(events: seq<Event>)
    requires Admissible(events)
    ensures var e := Run(events);
            && Clean(map[], e.updates)
            && AllKnown(e)
    decreases |events|
  {
    hide Invariant, Acceptable, Knows, Clean, News, Serve;
    if events == [] {
      EmptyMarket();
    } else {
      var n := |events| - 1;
      AdmissiblePrefix(events, n);
      StreamIsComplete(events[..n]);
      if events[n].request.New? {
        IdLeft(events);
      }
      ServeKnown(Run(events[..n]), events[n]);
    }
  }

  /** What one request adds to the stream, for the book it goes to and for the others. */
  lemma ServeKnown(e: Exchange, event: Event)
    requires BooksOk(e) && event.symbol < MAX_SYMBOLS && Acceptable(ConfigOf(event.symbol), event.request)
    requires event.request.New? ==> e.books[event.symbol].nextId < MAX_ORDER_IDS
    requires Clean(map[], e.updates) && AllKnown(e)
    ensures var e' := Serve(e, event);
            Clean(map[], e'.updates) && AllKnown(e')
  {
    hide Step, Invariant, Acceptable, BookTicksOk, Knows, Clean, Fits, SameElsewhere;
    var s, r := event.symbol, event.request;
    var m := Replay(map[], e.updates);
    var last := SafeStep(s, e.books[s], r);
    StepStream(m, ConfigOf(s), e.books[s], r);
    CleanConcat(map[], e.updates, last.updates);
    ReplayConcat(map[], e.updates, last.updates);
    CleanEnd(m, last.updates);
    forall k | 0 <= k < MAX_SYMBOLS && k != s
      ensures Knows(Replay(m, last.updates), k, e.books[k])
    {
      OtherSymbolKnown(m, Replay(m, last.updates), s, k, e.books[k]);
    }
  }

  lemma EmptyMarket()
    ensures Clean(map[], []) && Replay(map[], []) == map[]
    ensures forall s :: Knows(map[], s, EmptyBook())
  {
  }

  lemma CleanEnd(m: Market, us: seq<Update>)
    requires Clean(m, us)
    ensures Uncrossed(Replay(m, us))
  {
    CleanPrefix(m, us, |us|);
    assert us[..|us|] == us;
  }

  lemma OtherSymbolKnown(m: Market, m': Market, changed: nat, symbol: nat, b: Book)
    requires Knows(m, symbol, b) && SameElsewhere(m, m', changed) && symbol != changed && Uncrossed(m')
    ensures Knows(m', symbol, b)
  {
    forall side: Direction, i | 0 <= i < |HalfOf(b, side).orders|
      ensures ShowsOrder(m', symbol, side, HalfOf(b, side).orders[i])
    {
      assert ShowsOrder(m, symbol, side, HalfOf(b, side).orders[i]);
    }
    forall id | (symbol, id) in m'
      ensures HasId(b.bids.orders, id) || HasId(b.asks.orders, id)
    {
      assert (symbol, id) in m;
    }
  }
}
