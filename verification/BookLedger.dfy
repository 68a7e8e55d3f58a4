/** What the clients are told: every order has a lawful life, and no quantity appears or
    disappears. */
module BookLedgers {
  import opened Types
  import opened PriceBands
  import opened HalfBooks
  import opened Books
  import opened BookFacts

  // ----- conservation -----

  function TotalQuantity(orders: seq<Resting>): nat {
    if orders == [] then 0 else orders[0].quantity + TotalQuantity(orders[1..])
  }

  /** Quantity that reports of one kind speak of: accepted or withdrawn quantities are in
      `remaining`, traded quantities in `executed`. */
  function Reported(kind: ResponseType, responses: seq<Response>): nat {
    if responses == [] then 0
    else (if responses[0].kind != kind then 0
          else if kind == FILLED then responses[0].executed else responses[0].remaining)
         + Reported(kind, responses[1..])
  }

  function TradedQuantity(updates: seq<Update>): nat {
    if updates == [] then 0
    else (if updates[0].kind == TRADE then updates[0].quantity else 0) + TradedQuantity(updates[1..])
  }

  lemma {:induction false} TotalConcat(a: seq<Resting>, b: seq<Resting>)
    ensures TotalQuantity(a + b) == TotalQuantity(a) + TotalQuantity(b)
  {
    if a == [] {
      assert a + b == b;
    } else {
      assert (a + b)[1..] == a[1..] + b;
      TotalConcat(a[1..], b);
    }
  }

  lemma {:induction false} ReportedConcat(kind: ResponseType, a: seq<Response>, b: seq<Response>)
    ensures Reported(kind, a + b) == Reported(kind, a) + Reported(kind, b)
  {
    if a == [] {
      assert a + b == b;
    } else {
      assert (a + b)[1..] == a[1..] + b;
      ReportedConcat(kind, a[1..], b);
    }
  }

  lemma {:induction false} TradedConcat(a: seq<Update>, b: seq<Update>)
    ensures TradedQuantity(a + b) == TradedQuantity(a) + TradedQuantity(b)
  {
    if a == [] {
      assert a + b == b;
    } else {
      assert (a + b)[1..] == a[1..] + b;
      TradedConcat(a[1..], b);
    }
  }

  lemma TotalOfOne(o: Resting)
    ensures TotalQuantity([o]) == o.quantity
  {
    assert [o][1..] == [];
  }

  lemma TotalSplit(orders: seq<Resting>, i: nat)
    requires i < |orders|
    ensures TotalQuantity(orders) == TotalQuantity(orders[..i] + orders[i + 1..]) + orders[i].quantity
  {
    TotalOfOne(orders[i]);
    hide TotalQuantity;
    var before, after := orders[..i], orders[i + 1..];
    assert orders == before + [orders[i]] + after;
    TotalConcat(before + [orders[i]], after);
    TotalConcat(before, [orders[i]]);
    TotalConcat(before, after);
  }

  /** Matching moves as much quantity out of the makers as out of the taker, and reports
      each unit once to either side. */
  lemma {:induction false} MatchConserves(cfg: Config, t: Taker, h: Half, index: map<Key, nat>)
    requires TicksOk(h)
    ensures var m := Match(cfg, t, h, index);
            && m.left <= t.quantity
            && TotalQuantity(m.half.orders) + (t.quantity - m.left) == TotalQuantity(h.orders)
            && Reported(FILLED, m.responses) == 2 * (t.quantity - m.left)
            && TradedQuantity(m.updates) == t.quantity - m.left
            && Reported(ACCEPTED, m.responses) == Reported(CANCELED, m.responses) == 0
    decreases t.quantity + |h.orders|
  {
    if !CanTrade(t, h) {
    } else {
      MatchUnfold(cfg, t, h, index);
      hide Match;
      var first := FillFirst(cfg, t, h, index);
      FillConserves(cfg, t, h, index);
      MatchConserves(cfg, t.(quantity := first.left), first.half, first.index);
      var rest := Match(cfg, t.(quantity := first.left), first.half, first.index);
      ReportedConcat(FILLED, first.responses, rest.responses);
      ReportedConcat(ACCEPTED, first.responses, rest.responses);
      ReportedConcat(CANCELED, first.responses, rest.responses);
      TradedConcat(first.updates, rest.updates);
    }
  }

  lemma FillConserves(cfg: Config, t: Taker, h: Half, index: map<Key, nat>)
    requires TicksOk(h) && h.orders != []
    ensures var m := FillFirst(cfg, t, h, index);
            && TotalQuantity(m.half.orders) + (t.quantity - m.left) == TotalQuantity(h.orders)
            && Reported(FILLED, m.responses) == 2 * (t.quantity - m.left)
            && TradedQuantity(m.updates) == t.quantity - m.left
            && Reported(ACCEPTED, m.responses) == Reported(CANCELED, m.responses) == 0
  {
    FillShape(cfg, t, h, index);
    hide FillFirst, Reported, TradedQuantity, TotalQuantity;
    var m := FillFirst(cfg, t, h, index);
    TwoReports(m.responses);
    OneTrade(m.updates);
    FirstReplaced(h.orders, m.half.orders);
  }

  lemma OneTrade(us: seq<Update>)
    requires |us| == 2 && us[0].kind == TRADE && us[1].kind != TRADE
    ensures TradedQuantity(us) == us[0].quantity
  {
    assert us[1..] == [us[1]] && us[1..][1..] == [];
    assert TradedQuantity(us[1..]) == TradedQuantity(us[1..][1..]);
  }

  lemma FirstReplaced(orders: seq<Resting>, orders': seq<Resting>)
    requires orders != []
    requires orders' == orders[1..] || (orders' != [] && orders' == orders[0 := orders'[0]])
    ensures TotalQuantity(orders) - orders[0].quantity
         == TotalQuantity(orders') - if |orders'| == |orders| then orders'[0].quantity else 0
  {
    if |orders'| == |orders| {
      assert orders'[1..] == orders[1..];
    }
  }

  lemma TwoReports(rs: seq<Response>)
    requires |rs| == 2 && rs[0].kind == rs[1].kind == FILLED
    ensures Reported(FILLED, rs) == rs[0].executed + rs[1].executed
    ensures Reported(ACCEPTED, rs) == Reported(CANCELED, rs) == 0
  {
    assert rs == [rs[0]] + [rs[1]] && [rs[0]][1..] == [] && [rs[1]][1..] == [];
    ReportedConcat(FILLED, [rs[0]], [rs[1]]);
    ReportedConcat(ACCEPTED, [rs[0]], [rs[1]]);
    ReportedConcat(CANCELED, [rs[0]], [rs[1]]);
  }

  function BookQuantity(b: Book): nat {
    TotalQuantity(b.bids.orders) + TotalQuantity(b.asks.orders)
  }

  lemma InsertTotal(side: Direction, h: Half, tick: int, clientId: nat, clientOrderId: nat, id: nat, quantity: nat)
    requires |h.nextPriority| == TICK_COUNT && 0 <= tick < TICK_COUNT
    ensures TotalQuantity(Insert(side, h, tick, clientId, clientOrderId, id, quantity).orders)
            == TotalQuantity(h.orders) + quantity
  {
    var p := InsertPos(side, h.orders, tick);
    var orders := Insert(side, h, tick, clientId, clientOrderId, id, quantity).orders;
    TotalSplit(orders, p);
    assert orders[..p] + orders[p + 1..] == h.orders;
  }

  /** Whatever is asked: quantity resting before plus quantity accepted equals twice the
      quantity traded plus quantity withdrawn plus quantity resting after. */
  lemma StepConserves(cfg: Config, b: Book, r: Request)
    requires cfg.band.IsValid() && Acceptable(cfg, r) && BookTicksOk(b)
    ensures var done := Step(cfg, b, r);
            && BookQuantity(b) + Reported(ACCEPTED, done.responses)
               == 2 * TradedQuantity(done.updates) + Reported(CANCELED, done.responses) + BookQuantity(done.book)
            && Reported(FILLED, done.responses) == 2 * TradedQuantity(done.updates)
  {
    hide Match, Insert, Reported, TradedQuantity, TotalQuantity, CancelOrder;
    var done := Step(cfg, b, r);
    if r.New? {
      PriceOfTick(cfg.band, r.price);
      var tick := cfg.band.ToTick(r.price);
      var t := Taker(r.clientId, r.clientOrderId, b.nextId, r.side, tick, r.quantity);
      var m := Match(cfg, t, HalfOf(b, Opposite(r.side)), b.index);
      MatchConserves(cfg, t, HalfOf(b, Opposite(r.side)), b.index);
      var accepted := [Accepted(cfg, r, b.nextId)];
      AcceptedReport(accepted, m.responses);
      if m.left > 0 {
        var own := HalfOf(b, r.side);
        InsertTotal(r.side, own, tick, r.clientId, r.clientOrderId, b.nextId, m.left);
        var x := Resting(r.clientId, r.clientOrderId, b.nextId, tick, m.left, own.nextPriority[tick]);
        NoTrade(m.updates, Rested(cfg, r.side, x));
      }
    } else {
      CancelConserves(cfg, b, r.clientId, r.clientOrderId);
    }
  }

  lemma NoTrade(updates: seq<Update>, u: Update)
    requires u.kind != TRADE
    ensures TradedQuantity(updates + [u]) == TradedQuantity(updates)
  {
    TradedConcat(updates, [u]);
    assert TradedQuantity([u]) == TradedQuantity([u][1..]);
  }

  lemma AcceptedReport(accepted: seq<Response>, rest: seq<Response>)
    requires |accepted| == 1 && accepted[0].kind == ACCEPTED
    ensures Reported(ACCEPTED, accepted + rest) == accepted[0].remaining + Reported(ACCEPTED, rest)
    ensures Reported(FILLED, accepted + rest) == Reported(FILLED, rest)
    ensures Reported(CANCELED, accepted + rest) == Reported(CANCELED, rest)
  {
    assert accepted[1..] == [];
    ReportedConcat(ACCEPTED, accepted, rest);
    ReportedConcat(FILLED, accepted, rest);
    ReportedConcat(CANCELED, accepted, rest);
  }

  lemma CancelConserves(cfg: Config, b: Book, clientId: nat, clientOrderId: nat)
    requires BookTicksOk(b)
    ensures var done := CancelOrder(cfg, b, clientId, clientOrderId);
            && BookQuantity(b) == Reported(CANCELED, done.responses) + BookQuantity(done.book)
            && Reported(ACCEPTED, done.responses) == Reported(FILLED, done.responses) == 0
            && TradedQuantity(done.updates) == 0
  {
    hide HasTick;
    var done := CancelOrder(cfg, b, clientId, clientOrderId);
    assert done.responses[1..] == [];
    if done.updates != [] {
      var id := b.index[(clientId, clientOrderId)];
      if Position(b.bids.orders, id) < |b.bids.orders| {
        TotalSplit(b.bids.orders, Position(b.bids.orders, id));
      } else {
        TotalSplit(b.asks.orders, Position(b.asks.orders, id));
      }
    }
  }

  // ----- lives of orders -----

  /** What a client knows of a live order. */
  datatype Life = Life(clientId: nat, clientOrderId: nat, side: Side, remaining: nat)

  /** Market order id -> life, for the orders that are alive. */
  type Ledger = map<nat, Life>

  /** A report that a lawful life allows. Ids below `nextId` have been used: an order that
      is not in the ledger and is not `nextId` can never be reported again. */
  predicate Lawful(ledger: Ledger, nextId: nat, r: Response) {
    match r.kind
    case ACCEPTED => r.marketOrderId == nextId && r.executed == 0 && r.remaining > 0
    case FILLED =>
      && r.marketOrderId in ledger && r.executed > 0
      && ledger[r.marketOrderId] == Life(r.clientId, r.clientOrderId, r.side, r.executed + r.remaining)
    case CANCELED =>
      && r.marketOrderId in ledger && r.executed == 0 && r.remaining > 0
      && ledger[r.marketOrderId] == Life(r.clientId, r.clientOrderId, r.side, r.remaining)
    case CANCEL_REJECTED => r.marketOrderId == 0 && r.executed == r.remaining == 0
  }

  function Record(ledger: Ledger, r: Response): Ledger {
    match r.kind
    case CANCEL_REJECTED => ledger
    case CANCELED => ledger - {r.marketOrderId}
    case _ =>
      if r.remaining == 0 then ledger - {r.marketOrderId}
      else ledger[r.marketOrderId := Life(r.clientId, r.clientOrderId, r.side, r.remaining)]
  }

  function NextId(nextId: nat, r: Response): nat {
    if r.kind == ACCEPTED then nextId + 1 else nextId
  }

  function RecordAll(ledger: Ledger, rs: seq<Response>): Ledger
    decreases |rs|
  {
    if rs == [] then ledger else RecordAll(Record(ledger, rs[0]), rs[1..])
  }

  predicate AllLawful(ledger: Ledger, nextId: nat, rs: seq<Response>)
    decreases |rs|
  {
    rs != [] ==> Lawful(ledger, nextId, rs[0]) && AllLawful(Record(ledger, rs[0]), NextId(nextId, rs[0]), rs[1..])
  }

  function Accepts(rs: seq<Response>): nat {
    if rs == [] then 0 else (if rs[0].kind == ACCEPTED then 1 else 0) + Accepts(rs[1..])
  }

  lemma NextIdIs(nextId: nat, r: Response)
    ensures NextId(nextId, r) == nextId + if r.kind == ACCEPTED then 1 else 0
  {
  }

  lemma {:induction false} LawfulConcat(ledger: Ledger, nextId: nat, a: seq<Response>, b: seq<Response>)
    requires AllLawful(ledger, nextId, a) && AllLawful(RecordAll(ledger, a), nextId + Accepts(a), b)
    ensures AllLawful(ledger, nextId, a + b) && RecordAll(ledger, a + b) == RecordAll(RecordAll(ledger, a), b)
    ensures Accepts(a + b) == Accepts(a) + Accepts(b)
    decreases |a|
  {
    hide Lawful, Record, NextId;
    if a == [] {
      assert a + b == b;
    } else {
      assert (a + b)[1..] == a[1..] + b;
      assert Accepts(a) == (if a[0].kind == ACCEPTED then 1 else 0) + Accepts(a[1..]);
      NextIdIs(nextId, a[0]);
      LawfulConcat(Record(ledger, a[0]), NextId(nextId, a[0]), a[1..], b);
    }
  }

  function LifeOf(side: Side, o: Resting): Life {
    Life(o.clientId, o.clientOrderId, side, o.quantity)
  }

  ghost predicate HasOrder(ledger: Ledger, side: Side, o: Resting) {
    o.marketOrderId in ledger && ledger[o.marketOrderId] == LifeOf(side, o)
  }

  ghost predicate HasOrders(ledger: Ledger, side: Side, orders: seq<Resting>) {
    forall i :: 0 <= i < |orders| ==> HasOrder(ledger, side, orders[i])
  }

  /** The ledger has the orders of both sides, the taker while it has quantity, and
      nothing else. */
  ghost predicate Accounts(ledger: Ledger, t: Taker, orders: seq<Resting>, own: seq<Resting>) {
    && HasOrders(ledger, Opposite(t.side), orders)
    && HasOrders(ledger, t.side, own)
    && (t.quantity > 0 ==> t.marketOrderId in ledger
                           && ledger[t.marketOrderId] == Life(t.clientId, t.clientOrderId, t.side, t.quantity))
    && (forall id :: id in ledger ==> HasId(orders, id) || HasId(own, id) || (id == t.marketOrderId && t.quantity > 0))
  }

  ghost predicate AllDistinct(t: Taker, orders: seq<Resting>, own: seq<Resting>) {
    && (forall i, j :: 0 <= i < j < |orders| ==> orders[i].marketOrderId != orders[j].marketOrderId)
    && (forall i, j :: 0 <= i < |orders| && 0 <= j < |own| ==> orders[i].marketOrderId != own[j].marketOrderId)
    && (forall i :: 0 <= i < |orders| ==> orders[i].marketOrderId != t.marketOrderId)
    && (forall i :: 0 <= i < |own| ==> own[i].marketOrderId != t.marketOrderId)
  }

  lemma FillLawful(ledger: Ledger, nextId: nat, cfg: Config, t: Taker, h: Half, index: map<Key, nat>, own: seq<Resting>)
    requires TicksOk(h) && Positive(h.orders) && CanTrade(t, h)
    requires Accounts(ledger, t, h.orders, own) && AllDistinct(t, h.orders, own)
    ensures var m := FillFirst(cfg, t, h, index);
            && AllLawful(ledger, nextId, m.responses) && Accepts(m.responses) == 0
            && Accounts(RecordAll(ledger, m.responses), t.(quantity := m.left), m.half.orders, own)
            && AllDistinct(t, m.half.orders, own)
  {
    hide Accounts, AllDistinct, Lawful, Record, RemoveAt, FillAt;
    var m := FillFirst(cfg, t, h, index);
    FillReports(ledger, nextId, cfg, t, h, index, own);
    TwoLawful(ledger, nextId, m.responses[0], m.responses[1]);
    assert m.responses == [m.responses[0], m.responses[1]];
    FilledAccounts(ledger, Record(Record(ledger, m.responses[0]), m.responses[1]), t, h.orders, m.left,
                   m.half.orders, own);
  }

  lemma FillReports(ledger: Ledger, nextId: nat, cfg: Config, t: Taker, h: Half, index: map<Key, nat>,
                    own: seq<Resting>)
    requires TicksOk(h) && Positive(h.orders) && CanTrade(t, h)
    requires Accounts(ledger, t, h.orders, own) && AllDistinct(t, h.orders, own)
    ensures var m, o := FillFirst(cfg, t, h, index), h.orders[0];
            && |m.responses| == 2 && m.responses[0].kind == m.responses[1].kind == FILLED
            && Lawful(ledger, nextId, m.responses[0])
            && Lawful(Record(ledger, m.responses[0]), nextId, m.responses[1])
            && Replaced(ledger, Record(Record(ledger, m.responses[0]), m.responses[1]), t, h.orders, m.left,
                        m.half.orders)
  {
    hide FillFirst, Accounts, AllDistinct, HasOrder, Lawful, Record;
    FillShape(cfg, t, h, index);
    BothHaveLives(ledger, t, h.orders, own);
    var m, o := FillFirst(cfg, t, h, index), h.orders[0];
    var x := Min(t.quantity, o.quantity);
    TwoReportsRecorded(ledger, nextId, cfg, t, o, x);
    if x < o.quantity {
      assert m.half.orders[1..] == h.orders[1..];
    }
  }

  lemma BothHaveLives(ledger: Ledger, t: Taker, orders: seq<Resting>, own: seq<Resting>)
    requires Accounts(ledger, t, orders, own) && AllDistinct(t, orders, own) && orders != [] && t.quantity > 0
    ensures HasOrder(ledger, Opposite(t.side), orders[0]) && orders[0].marketOrderId != t.marketOrderId
    ensures t.marketOrderId in ledger
    ensures ledger[t.marketOrderId] == Life(t.clientId, t.clientOrderId, t.side, t.quantity)
  {
  }

  /** The ledger after the two reports of a fill of `x`. */
  lemma TwoReportsRecorded(ledger: Ledger, nextId: nat, cfg: Config, t: Taker, o: Resting, x: nat)
    requires 0 < x <= o.quantity && x <= t.quantity && o.marketOrderId != t.marketOrderId
    requires HasOrder(ledger, Opposite(t.side), o) && t.marketOrderId in ledger
    requires ledger[t.marketOrderId] == Life(t.clientId, t.clientOrderId, t.side, t.quantity)
    ensures var r0 := TakerFilled(cfg, t, o.tick, x, t.quantity - x);
            var r1 := MakerFilled(cfg, Opposite(t.side), o, x);
            var ledger' := Record(Record(ledger, r0), r1);
            && Lawful(ledger, nextId, r0) && Lawful(Record(ledger, r0), nextId, r1)
            && (forall id :: id != t.marketOrderId && id != o.marketOrderId ==>
                  (id in ledger' <==> id in ledger) && (id in ledger ==> ledger'[id] == ledger[id]))
            && (if x < t.quantity
                then t.marketOrderId in ledger'
                     && ledger'[t.marketOrderId] == Life(t.clientId, t.clientOrderId, t.side, t.quantity - x)
                else t.marketOrderId !in ledger')
            && (if x < o.quantity then HasOrder(ledger', Opposite(t.side), o.(quantity := o.quantity - x))
                else o.marketOrderId !in ledger')
  {
  }

  /** The ledger after a fill: taker and first maker have what they have left. */
  ghost predicate Replaced(ledger: Ledger, ledger': Ledger, t: Taker, orders: seq<Resting>, left: nat,
                           orders': seq<Resting>) {
    && orders != []
    && (orders' == orders[1..] ||
        (orders' != [] && orders'[1..] == orders[1..] && orders'[0] == orders[0].(quantity := orders'[0].quantity)))
    && (forall id :: id != t.marketOrderId && id != orders[0].marketOrderId ==>
          (id in ledger' <==> id in ledger) && (id in ledger ==> ledger'[id] == ledger[id]))
    && (if left > 0
        then t.marketOrderId in ledger' && ledger'[t.marketOrderId] == Life(t.clientId, t.clientOrderId, t.side, left)
        else t.marketOrderId !in ledger')
    && (if |orders'| == |orders| then HasOrder(ledger', Opposite(t.side), orders'[0])
        else orders[0].marketOrderId !in ledger')
  }

  lemma TwoLawful(ledger: Ledger, nextId: nat, r0: Response, r1: Response)
    requires r0.kind == r1.kind == FILLED
    requires Lawful(ledger, nextId, r0) && Lawful(Record(ledger, r0), nextId, r1)
    ensures AllLawful(ledger, nextId, [r0, r1]) && Accepts([r0, r1]) == 0
    ensures RecordAll(ledger, [r0, r1]) == Record(Record(ledger, r0), r1)
  {
    assert [r0, r1][1..] == [r1] && [r1][1..] == [];
    assert RecordAll(ledger, [r0, r1]) == RecordAll(Record(ledger, r0), [r1]);
    assert RecordAll(Record(ledger, r0), [r1]) == RecordAll(Record(Record(ledger, r0), r1), []);
    assert AllLawful(Record(ledger, r0), nextId, [r1]);
    assert Accepts([r1]) == 0;
  }

  lemma FilledAccounts(ledger: Ledger, ledger': Ledger, t: Taker, orders: seq<Resting>, left: nat,
                       orders': seq<Resting>, own: seq<Resting>)
    requires Accounts(ledger, t, orders, own) && AllDistinct(t, orders, own)
    requires Replaced(ledger, ledger', t, orders, left, orders')
    ensures Accounts(ledger', t.(quantity := left), orders', own)
    ensures AllDistinct(t, orders', own)
  {
    var d := |orders| - |orders'|;
    forall i | 0 <= i < |orders'|
      ensures HasOrder(ledger', Opposite(t.side), orders'[i])
      ensures orders'[i].marketOrderId == orders[i + d].marketOrderId
    {
      if i + d > 0 {
        assert orders'[i] == orders[i + d] by {
          if d == 0 {
            assert orders'[1..][i - 1] == orders[1..][i - 1];
          }
        }
        assert HasOrder(ledger, Opposite(t.side), orders[i + d]);
      }
    }
    forall i | 0 <= i < |own|
      ensures HasOrder(ledger', t.side, own[i])
    {
      assert HasOrder(ledger, t.side, own[i]);
    }
    forall id | id in ledger'
      ensures HasId(orders', id) || HasId(own, id) || (id == t.marketOrderId && left > 0)
    {
      if id != t.marketOrderId && HasId(orders, id) {
        var k :| 0 <= k < |orders| && orders[k].marketOrderId == id;
        assert k - d >= 0 ==> orders'[k - d].marketOrderId == id;
      }
    }
  }

  lemma {:induction false} MatchLawful(ledger: Ledger, nextId: nat, cfg: Config, t: Taker, h: Half,
                                       index: map<Key, nat>, own: seq<Resting>)
    requires TicksOk(h) && Positive(h.orders)
    requires Accounts(ledger, t, h.orders, own) && AllDistinct(t, h.orders, own)
    ensures var m := Match(cfg, t, h, index);
            && AllLawful(ledger, nextId, m.responses) && Accepts(m.responses) == 0
            && Accounts(RecordAll(ledger, m.responses), t.(quantity := m.left), m.half.orders, own)
            && AllDistinct(t, m.half.orders, own)
    decreases t.quantity + |h.orders|
  {
    hide Accounts, AllDistinct, FillFirst, Match, Lawful;
    if CanTrade(t, h) {
      MatchUnfold(cfg, t, h, index);
      FillLawful(ledger, nextId, cfg, t, h, index, own);
      FillKeepsPositive(cfg, t, h, index);
      var first := FillFirst(cfg, t, h, index);
      var ledger1, t1 := RecordAll(ledger, first.responses), t.(quantity := first.left);
      SameTaker(t, t1, first.half.orders, own);
      MatchLawful(ledger1, nextId, cfg, t1, first.half, first.index, own);
      var rest := Match(cfg, t1, first.half, first.index);
      SameTaker(t1, t, rest.half.orders, own);
      LawfulConcat(ledger, nextId, first.responses, rest.responses);
    } else {
      MatchStopsHere(cfg, t, h, index);
      assert t.(quantity := t.quantity) == t;
    }
  }

  lemma SameTaker(t: Taker, t': Taker, orders: seq<Resting>, own: seq<Resting>)
    requires AllDistinct(t, orders, own) && t'.marketOrderId == t.marketOrderId
    ensures AllDistinct(t', orders, own)
  {
  }

  lemma MatchStopsHere(cfg: Config, t: Taker, h: Half, index: map<Key, nat>)
    requires TicksOk(h) && !CanTrade(t, h)
    ensures Match(cfg, t, h, index) == Matched(t.quantity, h, index, [], [])
  {
  }

  /** The ledger has exactly the resting orders. */
  ghost predicate Follows(ledger: Ledger, b: Book) {
    && HasOrders(ledger, BUY, b.bids.orders)
    && HasOrders(ledger, SELL, b.asks.orders)
    && forall id :: id in ledger ==> HasId(b.bids.orders, id) || HasId(b.asks.orders, id)
  }

  lemma TakerIsNew(b: Book, t: Taker)
    requires Invariant(b) && t.marketOrderId == b.nextId
    ensures AllDistinct(t, HalfOf(b, Opposite(t.side)).orders, HalfOf(b, t.side).orders)
  {
    hide WellFormed, IndexSound, Positive;
  }

  lemma TakerEnters(ledger: Ledger, b: Book, t: Taker)
    requires Invariant(b) && Follows(ledger, b) && t.marketOrderId == b.nextId && t.quantity > 0
    ensures var ledger' := ledger[b.nextId := Life(t.clientId, t.clientOrderId, t.side, t.quantity)];
            Accounts(ledger', t, HalfOf(b, Opposite(t.side)).orders, HalfOf(b, t.side).orders)
    ensures AllDistinct(t, HalfOf(b, Opposite(t.side)).orders, HalfOf(b, t.side).orders)
  {
    TakerIsNew(b, t);
    hide Invariant, AllDistinct;
    var ledger' := ledger[b.nextId := Life(t.clientId, t.clientOrderId, t.side, t.quantity)];
    var orders, own := HalfOf(b, Opposite(t.side)).orders, HalfOf(b, t.side).orders;
    forall i | 0 <= i < |orders|
      ensures HasOrder(ledger', Opposite(t.side), orders[i])
    {
      assert HasOrder(ledger, Opposite(t.side), orders[i]);
    }
    forall i | 0 <= i < |own|
      ensures HasOrder(ledger', t.side, own[i])
    {
      assert HasOrder(ledger, t.side, own[i]);
    }
  }

  /** The taker rests: what it has left is now an order of the book. */
  lemma TakerRests(ledger: Ledger, t: Taker, orders: seq<Resting>, h: Half, h': Half)
    requires Accounts(ledger, t, orders, h.orders) && t.quantity > 0
    requires |h.nextPriority| == TICK_COUNT && 0 <= t.limitTick < TICK_COUNT
    requires h' == Insert(t.side, h, t.limitTick, t.clientId, t.clientOrderId, t.marketOrderId, t.quantity)
    ensures HasOrders(ledger, t.side, h'.orders) && HasOrders(ledger, Opposite(t.side), orders)
    ensures forall id :: id in ledger ==> HasId(orders, id) || HasId(h'.orders, id)
  {
    var p := InsertPos(t.side, h.orders, t.limitTick);
    assert h'.orders[p].marketOrderId == t.marketOrderId;
    forall i | 0 <= i < |h'.orders|
      ensures HasOrder(ledger, t.side, h'.orders[i])
    {
      if i != p {
        assert h'.orders[i] == h.orders[if i < p then i else i - 1];
      }
    }
    forall id | id in ledger
      ensures HasId(orders, id) || HasId(h'.orders, id)
    {
      if HasId(h.orders, id) {
        var k :| 0 <= k < |h.orders| && h.orders[k].marketOrderId == id;
        assert h'.orders[if k < p then k else k + 1] == h.orders[k];
      }
    }
  }

  lemma AddLawful(ledger: Ledger, cfg: Config, b: Book, r: Request)
    requires Invariant(b) && BookTicksOk(b) && r.New? && cfg.band.IsValid() && Acceptable(cfg, r) && Follows(ledger, b)
    ensures var done := Add(cfg, b, r);
            && AllLawful(ledger, b.nextId, done.responses) && Follows(RecordAll(ledger, done.responses), done.book)
            && done.book.nextId == b.nextId + Accepts(done.responses)
  {
    hide Accounts, AllDistinct, Match, Follows, HasOrders, Invariant, Insert;
    PriceOfTick(cfg.band, r.price);
    var tick := cfg.band.ToTick(r.price);
    var t := Taker(r.clientId, r.clientOrderId, b.nextId, r.side, tick, r.quantity);
    var h, own := HalfOf(b, Opposite(r.side)), HalfOf(b, r.side);
    var m := Match(cfg, t, h, b.index);
    TakerEnters(ledger, b, t);
    InvariantGivesSides(b);
    var accepted := Accepted(cfg, r, b.nextId);
    var ledger1 := Record(ledger, accepted);
    OneLawful(ledger, b.nextId, accepted);
    MatchLawful(ledger1, b.nextId + 1, cfg, t, h, b.index, own.orders);
    LawfulConcat(ledger, b.nextId, [accepted], m.responses);
    var ledger2 := RecordAll(ledger1, m.responses);
    var t2 := t.(quantity := m.left);
    if m.left > 0 {
      TakerRests(ledger2, t2, m.half.orders, own, HalfOf(Add(cfg, b, r).book, r.side));
    }
    AccountsFollow(ledger2, t2, m.half.orders, own.orders, Add(cfg, b, r).book);
  }

  lemma AccountsFollow(ledger: Ledger, t: Taker, orders: seq<Resting>, own: seq<Resting>, b: Book)
    requires HalfOf(b, Opposite(t.side)).orders == orders
    requires if t.quantity == 0 then Accounts(ledger, t, orders, own) && HalfOf(b, t.side).orders == own
             else var own' := HalfOf(b, t.side).orders;
                  && HasOrders(ledger, t.side, own') && HasOrders(ledger, Opposite(t.side), orders)
                  && forall id :: id in ledger ==> HasId(orders, id) || HasId(own', id)
    ensures Follows(ledger, b)
  {
    hide HasOrders, HasId;
  }

  lemma OneLawful(ledger: Ledger, nextId: nat, r: Response)
    requires Lawful(ledger, nextId, r)
    ensures AllLawful(ledger, nextId, [r]) && RecordAll(ledger, [r]) == Record(ledger, r)
    ensures nextId + Accepts([r]) == NextId(nextId, r)
  {
    assert [r][1..] == [];
  }

  lemma RemoveLawful(ledger: Ledger, cfg: Config, b: Book, side: Direction, i: nat)
    requires Invariant(b) && BookTicksOk(b) && i < |HalfOf(b, side).orders| && Follows(ledger, b)
    ensures var done := RemoveFrom(cfg, b, side, i);
            && AllLawful(ledger, b.nextId, done.responses) && Follows(RecordAll(ledger, done.responses), done.book)
            && done.book.nextId == b.nextId + Accepts(done.responses)
  {
    hide WellFormed, IndexSound, HasTick, IdsOk, Apart;
    var h, other := HalfOf(b, side), HalfOf(b, Opposite(side)).orders;
    var r := Withdrawn(cfg, side, h.orders[i]);
    assert HasOrder(ledger, side, h.orders[i]);
    assert h.orders[i].quantity > 0;
    OneLawful(ledger, b.nextId, r);
    RemovalIds(b, side, i);
    RemoveOrders(ledger, side, h.orders, other, i, RemoveAt(h, i).orders);
  }

  lemma RemovalIds(b: Book, side: Direction, i: nat)
    requires Invariant(b) && i < |HalfOf(b, side).orders|
    ensures var h, other := HalfOf(b, side).orders, HalfOf(b, Opposite(side)).orders;
            && (forall k :: 0 <= k < |h| && k != i ==> h[k].marketOrderId != h[i].marketOrderId)
            && (forall k :: 0 <= k < |other| ==> other[k].marketOrderId != h[i].marketOrderId)
  {
    hide WellFormed, IndexSound;
  }

  lemma RemoveOrders(ledger: Ledger, side: Direction, orders: seq<Resting>, other: seq<Resting>, i: nat,
                     rest: seq<Resting>)
    requires i < |orders| && rest == orders[..i] + orders[i + 1..]
    requires HasOrders(ledger, side, orders) && HasOrders(ledger, Opposite(side), other)
    requires forall id :: id in ledger ==> HasId(orders, id) || HasId(other, id)
    requires forall k :: 0 <= k < |orders| && k != i ==> orders[k].marketOrderId != orders[i].marketOrderId
    requires forall k :: 0 <= k < |other| ==> other[k].marketOrderId != orders[i].marketOrderId
    ensures var ledger' := ledger - {orders[i].marketOrderId};
            && HasOrders(ledger', side, rest) && HasOrders(ledger', Opposite(side), other)
            && forall id :: id in ledger' ==> HasId(rest, id) || HasId(other, id)
  {
    var ledger' := ledger - {orders[i].marketOrderId};
    forall k | 0 <= k < |rest|
      ensures HasOrder(ledger', side, rest[k])
    {
      assert rest[k] == orders[if k < i then k else k + 1];
      assert HasOrder(ledger, side, orders[if k < i then k else k + 1]);
    }
    forall k | 0 <= k < |other|
      ensures HasOrder(ledger', Opposite(side), other[k])
    {
      assert HasOrder(ledger, Opposite(side), other[k]);
    }
    forall id | id in ledger'
      ensures HasId(rest, id) || HasId(other, id)
    {
      if HasId(orders, id) {
        var k :| 0 <= k < |orders| && orders[k].marketOrderId == id;
        assert rest[if k < i then k else k - 1] == orders[k];
      }
    }
  }

  /** One request: every report it causes is a lawful next event in the life of an order. */
  lemma StepLawful(ledger: Ledger, cfg: Config, b: Book, r: Request)
    requires Invariant(b) && cfg.band.IsValid() && Acceptable(cfg, r) && Follows(ledger, b)
    ensures BookTicksOk(b)
    ensures var done := Step(cfg, b, r);
            && AllLawful(ledger, b.nextId, done.responses) && Follows(RecordAll(ledger, done.responses), done.book)
            && done.book.nextId == b.nextId + Accepts(done.responses)
  {
    hide Add, Invariant, RemoveFrom, Follows;
    InvariantGivesSides(b);
    InvariantGivesBookTicks(b);
    if r.New? {
      AddLawful(ledger, cfg, b, r);
    } else {
      var key := (r.clientId, r.clientOrderId);
      if key in b.index && Position(b.bids.orders, b.index[key]) < |b.bids.orders| {
        RemoveLawful(ledger, cfg, b, BUY, Position(b.bids.orders, b.index[key]));
      } else if key in b.index && Position(b.asks.orders, b.index[key]) < |b.asks.orders| {
        RemoveLawful(ledger, cfg, b, SELL, Position(b.asks.orders, b.index[key]));
      } else {
        OneLawful(ledger, b.nextId, Rejected(cfg, r.clientId, r.clientOrderId));
      }
    }
  }
}
