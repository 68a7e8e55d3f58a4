/** What the clients and the market are told over a whole run: every report names its order, and
    prices are fair. */
module BookReports {
  import opened Types
  import opened PriceBands
  import opened HalfBooks
  import opened Books
  import opened BookFacts
  import opened BookLaws
  import opened ExchangeRuns

  /** The new orders among the requests; number m of them gets market order id m. */
  function Asked(requests: seq<Request>): seq<Request> {
    if requests == [] then []
    else
      var n := |requests| - 1;
      Asked(requests[..n]) + if requests[n].New? then [requests[n]] else []
  }

  /** The price is the one asked for or a better one. */
  predicate NoWorse(side: Direction, price: int, limit: int) {
    if side == BUY then price <= limit else price >= limit
  }

  /** A report about an order is sent to who asked for it, for its symbol and side. It is accepted and
      cancelled at the price asked for and never executed at a worse one. */
  predicate Fair(symbol: nat, asked: seq<Request>, r: Response) {
    && r.symbol == symbol
    && if r.kind == CANCEL_REJECTED then r.marketOrderId == 0 && r.side == NoSide && r.price == 0
       else
         && 1 <= r.marketOrderId <= |asked|
         && var q := asked[r.marketOrderId - 1];
            && q.New? && (r.clientId, r.clientOrderId) == (q.clientId, q.clientOrderId) && r.side == q.side
            && if r.kind == FILLED then NoWorse(q.side, r.price, q.price) else r.price == q.price
  }

  ghost predicate AllFair(symbol: nat, asked: seq<Request>, rs: seq<Response>) {
    forall i :: 0 <= i < |rs| ==> Fair(symbol, asked, rs[i])
  }

  /** A resting order is the order that was asked for under its id, at the price asked for. */
  predicate AsAsked(band: PriceBand, asked: seq<Request>, side: Direction, x: Resting) {
    && 1 <= x.marketOrderId <= |asked|
    && var q := asked[x.marketOrderId - 1];
       q.New? && KeyOf(x) == (q.clientId, q.clientOrderId) && side == q.side && band.ToPrice(x.tick) == q.price
  }

  ghost predicate AllAsAsked(band: PriceBand, asked: seq<Request>, side: Direction, orders: seq<Resting>) {
    forall x :: x in orders ==> AsAsked(band, asked, side, x)
  }

  ghost predicate BookAsAsked(band: PriceBand, asked: seq<Request>, b: Book) {
    && |asked| + 1 == b.nextId
    && AllAsAsked(band, asked, BUY, b.bids.orders) && AllAsAsked(band, asked, SELL, b.asks.orders)
  }

  function AskedBy(r: Request): seq<Request> {
    if r.New? then [r] else []
  }

  lemma StillAsked(band: PriceBand, asked: seq<Request>, more: seq<Request>, side: Direction, orders: seq<Resting>,
                   x: Resting)
    requires AllAsAsked(band, asked, side, orders) && StillThere(orders, x)
    ensures AsAsked(band, asked + more, side, x)
  {
    var k :| 0 <= k < |orders| && orders[k] == x.(quantity := orders[k].quantity);
    assert AsAsked(band, asked, side, orders[k]);
    assert x.marketOrderId == orders[k].marketOrderId && x.tick == orders[k].tick && KeyOf(x) == KeyOf(orders[k]);
  }

  lemma FairLater(symbol: nat, asked: seq<Request>, more: seq<Request>, rs: seq<Response>)
    requires AllFair(symbol, asked, rs)
    ensures AllFair(symbol, asked + more, rs)
  {
    forall i | 0 <= i < |rs|
      ensures Fair(symbol, asked + more, rs[i])
    {
      assert Fair(symbol, asked, rs[i]);
    }
  }

  // ----- the fills of one order -----

  /** Fill number `i`: with whom, how much, and what it leaves the taker. */
  lemma FillOf(cfg: Config, t: Trader, quantity: nat, orders: seq<Resting>, n: nat, partial: nat, rs: seq<Response>,
               us: seq<Update>, i: nat)
    returns (o: Resting, x: nat, left: nat)
    requires n <= |orders| && (partial > 0 ==> n < |orders| && partial < orders[n].quantity)
    requires FillsTold(cfg, t, quantity, orders, n, partial, rs, us) && 2 * i < |rs|
    ensures 2 * i + 2 <= |rs| == |us|
    ensures i < |orders| && o == orders[i] && (i < n || (i == n && partial > 0)) && x <= o.quantity
    ensures FillTold(cfg, t, o, x, left, rs[2 * i..2 * i + 2], us[2 * i..2 * i + 2])
  {
    hide FillTold, Depth;
    if i < n {
      assert FullFill(cfg, t, quantity, orders, rs, us, i);
      o, x, left := orders[i], orders[i].quantity, quantity - Depth(orders, i + 1);
    } else {
      o, x, left := orders[n], partial, 0;
      assert rs[2 * n..2 * n + 2] == rs[2 * n..] && us[2 * n..2 * n + 2] == us[2 * n..];
    }
  }

  /** Both reports of a fill are fair. */
  lemma FillIsFair(cfg: Config, asked: seq<Request>, r: Request, id: nat, o: Resting, x: nat, left: nat,
                   rs: seq<Response>, us: seq<Update>)
    requires r.New? && |rs| == |us| == 2 && x <= o.quantity && Reaches(cfg, r, o)
    requires FillTold(cfg, Trader(r.clientId, r.clientOrderId, id, r.side), o, x, left, rs, us)
    requires 1 <= id <= |asked| && asked[id - 1] == r
    requires AsAsked(cfg.band, asked, Opposite(r.side), o)
    ensures Fair(cfg.symbol, asked, rs[0]) && Fair(cfg.symbol, asked, rs[1])
  {
    hide PriceBand.ToPrice;
  }

  lemma FillsAreFair(cfg: Config, asked: seq<Request>, r: Request, id: nat, makers: seq<Resting>, left: nat, n: nat,
                     partial: nat, rs: seq<Response>, us: seq<Update>)
    requires r.New? && MakersTrade(cfg, r, makers, left, n, partial)
    requires FillsTold(cfg, Trader(r.clientId, r.clientOrderId, id, r.side), r.quantity, makers, n, partial, rs, us)
    requires 1 <= id <= |asked| && asked[id - 1] == r
    requires AllAsAsked(cfg.band, asked, Opposite(r.side), makers)
    ensures AllFair(cfg.symbol, asked, rs)
  {
    hide FillTold, Fair, AsAsked, Reaches, Depth;
    var t := Trader(r.clientId, r.clientOrderId, id, r.side);
    forall k | 0 <= k < |rs|
      ensures Fair(cfg.symbol, asked, rs[k])
    {
      var i := k / 2;
      var o, x, rest := FillOf(cfg, t, r.quantity, makers, n, partial, rs, us, i);
      assert makers[i] in makers;
      FillIsFair(cfg, asked, r, id, o, x, rest, rs[2 * i..2 * i + 2], us[2 * i..2 * i + 2]);
      assert rs[k] == rs[2 * i..2 * i + 2][k - 2 * i];
    }
  }

  // ----- one request -----

  lemma NewIsFair(cfg: Config, b: Book, r: Request, done: Outcome, asked: seq<Request>, left: nat, n: nat,
                  partial: nat, p: nat)
    requires r.New? && NewLaw(cfg, b, r, done, left, n, partial, p) && BookAsAsked(cfg.band, asked, b)
    ensures AllFair(cfg.symbol, asked + [r], done.responses)
  {
    var makers, rs := HalfOf(b, Opposite(r.side)).orders, done.responses;
    var us := if left == 0 then done.updates else done.updates[..|done.updates| - 1];
    assert FillsTold(cfg, Trader(r.clientId, r.clientOrderId, b.nextId, r.side), r.quantity, makers, n, partial,
                     rs[1..], us);
    hide FillsTold, MakersTrade, AsAsked, Queues, IndexFollows, CountersKept;
    SameStillThere(makers);
    forall x | x in makers
      ensures AsAsked(cfg.band, asked + [r], Opposite(r.side), x)
    {
      StillAsked(cfg.band, asked, [r], Opposite(r.side), makers, x);
    }
    FillsAreFair(cfg, asked + [r], r, b.nextId, makers, left, n, partial, rs[1..], us);
    forall i | 0 <= i < |rs|
      ensures Fair(cfg.symbol, asked + [r], rs[i])
    {
      assert i > 0 ==> rs[i] == rs[1..][i - 1];
    }
  }

  lemma CancelIsFair(cfg: Config, b: Book, r: Request, done: Outcome, asked: seq<Request>)
    requires r.Cancel? && Honoured(cfg, b, r, done) && BookAsAsked(cfg.band, asked, b)
    ensures AllFair(cfg.symbol, asked, done.responses)
  {
    var key := (r.clientId, r.clientOrderId);
    if key in b.index {
      var side: Direction, i: nat :| WithdrawLaw(cfg, b, key, done, side, i);
      hide CountersKept, PriceBand.ToPrice;
      assert HalfOf(b, side).orders[i] in HalfOf(b, side).orders;
      assert AsAsked(cfg.band, asked, side, HalfOf(b, side).orders[i]);
    }
  }

  /** One request: its reports are fair, and every order still rests at the price it asked for. */
  lemma StepIsFair(cfg: Config, b: Book, r: Request, done: Outcome, asked: seq<Request>)
    requires Honoured(cfg, b, r, done) && BookAsAsked(cfg.band, asked, b)
    requires done.book.nextId == b.nextId + |AskedBy(r)|
    ensures AllFair(cfg.symbol, asked + AskedBy(r), done.responses)
    ensures BookAsAsked(cfg.band, asked + AskedBy(r), done.book)
  {
    hide AllFair, BookAsAsked, NewLaw, WithdrawLaw;
    RestAsAsked(cfg, b, r, done, asked);
    if r.New? {
      var left: nat, n: nat, partial: nat, p: nat :| NewLaw(cfg, b, r, done, left, n, partial, p);
      NewIsFair(cfg, b, r, done, asked, left, n, partial, p);
    } else {
      CancelIsFair(cfg, b, r, done, asked);
      assert asked + [] == asked;
    }
  }

  lemma RestAsAsked(cfg: Config, b: Book, r: Request, done: Outcome, asked: seq<Request>)
    requires Honoured(cfg, b, r, done) && BookAsAsked(cfg.band, asked, b)
    requires done.book.nextId == b.nextId + |AskedBy(r)|
    ensures BookAsAsked(cfg.band, asked + AskedBy(r), done.book)
  {
    RestsFrom(cfg, b, r, done);
    hide Honoured, StillThere, PriceBand.ToPrice;
    forall side: Direction, x | x in HalfOf(done.book, side).orders
      ensures AsAsked(cfg.band, asked + AskedBy(r), side, x)
    {
      if StillThere(HalfOf(b, side).orders, x) {
        StillAsked(cfg.band, asked, AskedBy(r), side, HalfOf(b, side).orders, x);
      }
    }
    assert HalfOf(done.book, BUY) == done.book.bids && HalfOf(done.book, SELL) == done.book.asks;
  }

  /** Over any run: every report goes to the client that asked for the order, no execution is at a price
      worse than asked for, and whatever rests, rests at the price asked for. */
  lemma {:induction false} EveryReportIsFair(symbol: nat, requests: seq<Request>)
    requires AllAcceptable(symbol, requests)
    ensures var run := RunBook(symbol, requests);
            && AllFair(symbol, Asked(requests), run.responses)
            && BookAsAsked(DEFAULT_PRICE_BAND, Asked(requests), run.book)
    decreases |requests|
  {
    hide Step, Invariant, Acceptable, BookTicksOk, Honoured, BookAsAsked, AllFair;
    if requests == [] {
      NothingAsked(symbol);
    } else {
      var n := |requests| - 1;
      EveryReportIsFair(symbol, requests[..n]);
      var before := RunBook(symbol, requests[..n]);
      var last := SafeStep(symbol, before.book, requests[n]);
      StepIsHonoured(ConfigOf(symbol), before.book, requests[n]);
      StepIsFair(ConfigOf(symbol), before.book, requests[n], last, Asked(requests[..n]));
      FairLater(symbol, Asked(requests[..n]), AskedBy(requests[n]), before.responses);
      FairConcat(symbol, Asked(requests), before.responses, last.responses);
    }
  }

  lemma NothingAsked(symbol: nat)
    ensures AllFair(symbol, [], []) && BookAsAsked(DEFAULT_PRICE_BAND, [], EmptyBook())
  {
  }

  lemma FairConcat(symbol: nat, asked: seq<Request>, a: seq<Response>, b: seq<Response>)
    requires AllFair(symbol, asked, a) && AllFair(symbol, asked, b)
    ensures AllFair(symbol, asked, a + b)
  {
    hide Fair;
  }

  // ----- the two sides of a trade -----

  function FillsIn(rs: seq<Response>): seq<Response> {
    if rs == [] then []
    else if rs[0].kind == FILLED then [rs[0]] + FillsIn(rs[1..])
    else FillsIn(rs[1..])
  }

  function TradesIn(us: seq<Update>): seq<Update> {
    if us == [] then []
    else if us[0].kind == TRADE then [us[0]] + TradesIn(us[1..])
    else TradesIn(us[1..])
  }

  /** Two executions and a trade tell the same story: opposite sides, one price, one quantity, and the
      resting order is the one the market sees trade. */
  predicate Agree(taker: Response, maker: Response, trade: Update) {
    && taker.kind == maker.kind == FILLED && trade.kind == TRADE
    && taker.price == maker.price == trade.price
    && taker.executed == maker.executed == trade.quantity
    && taker.symbol == maker.symbol == trade.symbol
    && maker.marketOrderId == trade.orderId < taker.marketOrderId
    && maker.side == trade.side != NoSide && taker.side == Opposite(maker.side)
  }

  /** Trade number i is told in the executions 2 i and 2 i + 1. */
  ghost predicate Paired(fills: seq<Response>, trades: seq<Update>) {
    |fills| == 2 * |trades| && forall i :: 0 <= i < |trades| ==> Agree(fills[2 * i], fills[2 * i + 1], trades[i])
  }

  lemma {:induction false} FillsConcat(a: seq<Response>, b: seq<Response>)
    ensures FillsIn(a + b) == FillsIn(a) + FillsIn(b)
  {
    if a == [] {
      assert a + b == b;
    } else {
      assert (a + b)[1..] == a[1..] + b;
      FillsConcat(a[1..], b);
    }
  }

  lemma {:induction false} TradesConcat(a: seq<Update>, b: seq<Update>)
    ensures TradesIn(a + b) == TradesIn(a) + TradesIn(b)
  {
    if a == [] {
      assert a + b == b;
    } else {
      assert (a + b)[1..] == a[1..] + b;
      TradesConcat(a[1..], b);
    }
  }

  lemma PairedConcat(f1: seq<Response>, t1: seq<Update>, f2: seq<Response>, t2: seq<Update>)
    requires Paired(f1, t1) && Paired(f2, t2)
    ensures Paired(f1 + f2, t1 + t2)
  {
    hide Agree;
    forall i | 0 <= i < |t1 + t2|
      ensures Agree((f1 + f2)[2 * i], (f1 + f2)[2 * i + 1], (t1 + t2)[i])
    {
      if i >= |t1| {
        var j := i - |t1|;
        assert (f1 + f2)[2 * i] == f2[2 * j] && (f1 + f2)[2 * i + 1] == f2[2 * j + 1] && (t1 + t2)[i] == t2[j];
        assert Agree(f2[2 * j], f2[2 * j + 1], t2[j]);
      } else {
        assert Agree(f1[2 * i], f1[2 * i + 1], t1[i]);
      }
    }
  }

  /** Messages that come in such pairs, with another update after each trade. */
  ghost predicate InPairs(rs: seq<Response>, us: seq<Update>, k: nat) {
    && |rs| == |us| == 2 * k
    && forall i :: 0 <= i < k ==> Agree(rs[2 * i], rs[2 * i + 1], us[2 * i]) && us[2 * i + 1].kind != TRADE
  }

  lemma {:induction false} PairsArePaired(rs: seq<Response>, us: seq<Update>, k: nat)
    requires InPairs(rs, us, k)
    ensures Paired(FillsIn(rs), TradesIn(us))
    decreases k
  {
    if k == 0 {
    } else {
      var n := 2 * k - 2;
      assert Agree(rs[2 * (k - 1)], rs[2 * (k - 1) + 1], us[2 * (k - 1)]) && us[2 * (k - 1) + 1].kind != TRADE;
      assert InPairs(rs[..n], us[..n], k - 1);
      PairsArePaired(rs[..n], us[..n], k - 1);
      assert rs == rs[..n] + rs[n..] && us == us[..n] + us[n..];
      FillsConcat(rs[..n], rs[n..]);
      TradesConcat(us[..n], us[n..]);
      OnePair(rs[n..], us[n..]);
      PairedConcat(FillsIn(rs[..n]), TradesIn(us[..n]), FillsIn(rs[n..]), TradesIn(us[n..]));
    }
  }

  lemma {:induction false} TwoFills(rs: seq<Response>)
    requires |rs| == 2 && rs[0].kind == rs[1].kind == FILLED
    ensures FillsIn(rs) == rs
  {
    assert rs[1..] == [rs[1]];
    assert FillsIn([rs[1]]) == [rs[1]];
  }

  lemma {:induction false} FirstTrades(us: seq<Update>)
    requires |us| == 2 && us[0].kind == TRADE && us[1].kind != TRADE
    ensures TradesIn(us) == [us[0]]
  {
    assert us[1..] == [us[1]];
    assert TradesIn([us[1]]) == [];
  }

  lemma {:induction false} OnePair(rs: seq<Response>, us: seq<Update>)
    requires |rs| == |us| == 2 && Agree(rs[0], rs[1], us[0]) && us[1].kind != TRADE
    ensures Paired(FillsIn(rs), TradesIn(us))
  {
    TwoFills(rs);
    FirstTrades(us);
    hide FillsIn, TradesIn;
  }

  lemma FillsInPairs(cfg: Config, t: Trader, quantity: nat, orders: seq<Resting>, n: nat, partial: nat,
                     rs: seq<Response>, us: seq<Update>)
    requires n <= |orders| && (partial > 0 ==> n < |orders| && partial < orders[n].quantity)
    requires FillsTold(cfg, t, quantity, orders, n, partial, rs, us)
    requires forall i :: 0 <= i < |orders| ==> orders[i].marketOrderId < t.marketOrderId
    ensures InPairs(rs, us, |rs| / 2)
  {
    hide FillTold, Depth, Agree;
    forall i | 0 <= i < |rs| / 2
      ensures Agree(rs[2 * i], rs[2 * i + 1], us[2 * i]) && us[2 * i + 1].kind != TRADE
    {
      var o, x, left := FillOf(cfg, t, quantity, orders, n, partial, rs, us, i);
      FillAgrees(cfg, t, o, x, left, rs[2 * i..2 * i + 2], us[2 * i..2 * i + 2]);
    }
  }

  lemma FillAgrees(cfg: Config, t: Trader, o: Resting, x: nat, left: nat, rs: seq<Response>, us: seq<Update>)
    requires |rs| == |us| == 2 && x <= o.quantity && FillTold(cfg, t, o, x, left, rs, us)
    requires o.marketOrderId < t.marketOrderId
    ensures Agree(rs[0], rs[1], us[0]) && us[1].kind != TRADE
  {
    hide PriceBand.ToPrice;
  }

  /** The executions and trades of one request agree. */
  lemma StepAgrees(cfg: Config, b: Book, r: Request, done: Outcome)
    requires Honoured(cfg, b, r, done) && Invariant(b)
    ensures Paired(FillsIn(done.responses), TradesIn(done.updates))
  {
    if r.New? {
      var left: nat, n: nat, partial: nat, p: nat :| NewLaw(cfg, b, r, done, left, n, partial, p);
      NewAgrees(cfg, b, r, done, left, n, partial, p);
    } else {
      hide CountersKept, Invariant;
      assert |done.responses| == 1 && |done.updates| <= 1;
      assert done.responses[1..] == [] && (done.updates != [] ==> done.updates[1..] == []);
    }
  }

  lemma NewAgrees(cfg: Config, b: Book, r: Request, done: Outcome, left: nat, n: nat, partial: nat, p: nat)
    requires r.New? && NewLaw(cfg, b, r, done, left, n, partial, p) && Invariant(b)
    ensures Paired(FillsIn(done.responses), TradesIn(done.updates))
  {
    OlderIds(b, Opposite(r.side));
    hide Paired, FillsIn, TradesIn, InPairs, Invariant;
    var rs, us := done.responses, if left == 0 then done.updates else done.updates[..|done.updates| - 1];
    NewInPairs(cfg, b, r, done, left, n, partial, p, us);
    PairsArePaired(rs[1..], us, |rs[1..]| / 2);
    NoFillFirst(rs);
    if us != done.updates {
      NoTradeLast(done.updates);
    }
  }

  lemma NewInPairs(cfg: Config, b: Book, r: Request, done: Outcome, left: nat, n: nat, partial: nat, p: nat,
                   us: seq<Update>)
    requires r.New? && NewLaw(cfg, b, r, done, left, n, partial, p)
    requires us == if left == 0 then done.updates else done.updates[..|done.updates| - 1]
    requires forall i :: 0 <= i < |HalfOf(b, Opposite(r.side)).orders| ==>
               HalfOf(b, Opposite(r.side)).orders[i].marketOrderId < b.nextId
    ensures done.responses != [] && done.responses[0].kind != FILLED
    ensures us == done.updates || (done.updates != [] && done.updates[|done.updates| - 1].kind != TRADE)
    ensures InPairs(done.responses[1..], us, |done.responses[1..]| / 2)
  {
    hide FillsTold, MakersTrade, Queues, IndexFollows, CountersKept, InPairs;
    var makers := HalfOf(b, Opposite(r.side)).orders;
    MakersInRange(cfg, r, makers, left, n, partial);
    FillsInPairs(cfg, Trader(r.clientId, r.clientOrderId, b.nextId, r.side), r.quantity, makers, n, partial,
                 done.responses[1..], us);
  }

  lemma {:induction false} NoFillFirst(rs: seq<Response>)
    requires rs != [] && rs[0].kind != FILLED
    ensures FillsIn(rs) == FillsIn(rs[1..])
  {
    assert rs == [rs[0]] + rs[1..];
    FillsConcat([rs[0]], rs[1..]);
  }

  lemma {:induction false} NoTradeLast(us: seq<Update>)
    requires us != [] && us[|us| - 1].kind != TRADE
    ensures TradesIn(us) == TradesIn(us[..|us| - 1])
  {
    var n := |us| - 1;
    assert us == us[..n] + [us[n]];
    TradesConcat(us[..n], [us[n]]);
    assert [us[n]][1..] == [] && TradesIn([us[n]]) == [];
  }

  lemma OlderIds(b: Book, side: Direction)
    requires Invariant(b)
    ensures forall i :: 0 <= i < |HalfOf(b, side).orders| ==> HalfOf(b, side).orders[i].marketOrderId < b.nextId
  {
    hide WellFormed, Positive, Apart, IndexSound;
  }

  /** Over any run: the executions come in pairs, and pair number i agrees with trade number i in price,
      quantity and sides. */
  lemma {:induction false} TradesAgree(symbol: nat, requests: seq<Request>)
    requires AllAcceptable(symbol, requests)
    ensures var run := RunBook(symbol, requests);
            Paired(FillsIn(run.responses), TradesIn(run.updates))
    decreases |requests|
  {
    hide Step, Invariant, Acceptable, BookTicksOk, Honoured, Paired;
    if requests == [] {
      assert Paired(FillsIn([]), TradesIn([])) by {
        NoPairs();
      }
    } else {
      var n := |requests| - 1;
      TradesAgree(symbol, requests[..n]);
      var before := RunBook(symbol, requests[..n]);
      var last := SafeStep(symbol, before.book, requests[n]);
      StepIsHonoured(ConfigOf(symbol), before.book, requests[n]);
      StepAgrees(ConfigOf(symbol), before.book, requests[n], last);
      FillsConcat(before.responses, last.responses);
      TradesConcat(before.updates, last.updates);
      PairedConcat(FillsIn(before.responses), TradesIn(before.updates), FillsIn(last.responses),
                   TradesIn(last.updates));
    }
  }

  lemma NoPairs()
    ensures Paired(FillsIn([]), TradesIn([]))
  {
  }
}
