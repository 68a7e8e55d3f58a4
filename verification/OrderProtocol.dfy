/** One client and the exchange's book of one symbol, over asynchronous channels: requests
    may overtake each other, responses arrive in order. */
module OrderProtocols {
  import opened Types
  import opened PriceBands
  import opened ClientOrders
  import opened BookLedgers
  import opened BookIndexes
  import opened Books
  import BookLaws
  import HalfBooks
  import Exchange = ExchangeRuns

  datatype Setup = Setup(symbol: nat, clientId: nat, risk: RiskCfg) {
    predicate Valid() {
      clientId < MAX_CLIENTS
    }
  }

  /** `bag` holds the requests on their way, `queue` the responses; `executed` is the net
      quantity that the exchange has executed for the client, delivered or not. */
  datatype System = System(
    sides: Sides, position: int, nextId: nat, bag: multiset<Request>, queue: seq<Response>, book: Book, executed: int)

  datatype Action =
    | Quote(side: Direction, price: Option<int>, quantity: nat, totalPnl: real)
    | SkipId                       // the client uses an order id for another symbol
    | Deliver                      // the client gets the next response
    | Take(request: Request)       // the exchange takes one of the client's requests
    | Other(request: Request)      // the exchange takes a request of another client

  const START := System(NO_ORDERS, 0, 1, multiset{}, [], EmptyBook(), 0)

  /** What a quote does to the order of its side. */
  function Quoted(u: Setup, s: System, side: Direction, price: Option<int>, quantity: nat, totalPnl: real): Moved {
    Move(DEFAULT_PRICE_BAND, u.clientId, s.nextId, OrderOn(s.sides, side), price, side, quantity,
         CheckPreTradeRisk(u.risk, s.position, totalPnl, side, quantity))
  }

  /** A quote that sends a new order finds an order id left and has a price of the band; other
      clients obey the contract of the book, and use their order ids as they like. */
  ghost predicate Enabled(u: Setup, s: System, a: Action) {
    match a
    case Quote(side, price, quantity, totalPnl) =>
      && quantity < QUANTITY_MODULUS
      && (SendsNew(Quoted(u, s, side, price, quantity, totalPnl)) ==>
            s.nextId < MAX_ORDER_IDS && DEFAULT_PRICE_BAND.InBand(price.value))
    case SkipId => s.nextId < MAX_ORDER_IDS
    case Deliver => s.queue != []
    case Take(r) => r in s.bag
    case Other(r) => r.clientId != u.clientId && Acceptable(Exchange.ConfigOf(u.symbol), r)
  }

  function Mine(c: nat, rs: seq<Response>): seq<Response> {
    if rs == [] then []
    else (if rs[0].clientId == c then [rs[0]] else []) + Mine(c, rs[1..])
  }

  function Signed(side: Side, n: int): int {
    match side
    case BUY => n
    case SELL => -n
    case NoSide => 0
  }

  /** Net quantity of the executions among the responses. */
  function Net(rs: seq<Response>): int {
    if rs == [] then 0 else (if rs[0].kind == FILLED then Signed(rs[0].side, rs[0].executed) else 0) + Net(rs[1..])
  }

  /** The book's step; what it does outside its contract is never reached. */
  ghost function BookStep(u: Setup, b: Book, r: Request): Outcome {
    if Invariant(b) && Acceptable(Exchange.ConfigOf(u.symbol), r) then Exchange.SafeStep(u.symbol, b, r)
    else Outcome(b, [], [])
  }

  ghost function Served(u: Setup, s: System, r: Request): System {
    var done := BookStep(u, s.book, r);
    var mine := Mine(u.clientId, done.responses);
    s.(book := done.book, queue := s.queue + mine, executed := s.executed + Net(mine))
  }

  ghost function Do(u: Setup, s: System, a: Action): System
    requires Enabled(u, s, a)
  {
    match a
    case Quote(side, price, quantity, totalPnl) =>
      var moved := Quoted(u, s, side, price, quantity, totalPnl);
      s.(sides := WithOrder(s.sides, side, moved.order),
         bag := if moved.request.Some? then s.bag + multiset{moved.request.value} else s.bag,
         nextId := if SendsNew(moved) then s.nextId + 1 else s.nextId)
    case SkipId => s.(nextId := s.nextId + 1)
    case Deliver =>
      var r := s.queue[0];
      s.(sides := OnResponse(s.sides, r), queue := s.queue[1..],
         position := s.position + if r.kind == FILLED then Signed(r.side, r.executed) else 0)
    case Take(r) => Served(u, s.(bag := s.bag - multiset{r}), r)
    case Other(r) => Served(u, s, r)
  }

  ghost predicate Possible(u: Setup, actions: seq<Action>)
    decreases |actions|, 0
  {
    actions == [] ||
    (Possible(u, actions[..|actions| - 1]) && Enabled(u, Run(u, actions[..|actions| - 1]), actions[|actions| - 1]))
  }

  ghost function Run(u: Setup, actions: seq<Action>): System
    requires Possible(u, actions)
    decreases |actions|, 1
  {
    if actions == [] then START else Do(u, Run(u, actions[..|actions| - 1]), actions[|actions| - 1])
  }

  // ----- invariant -----

  /** The client's orders after everything queued has been delivered. */
  ghost function Settled(s: Sides, queue: seq<Response>): Sides {
    Sides(Settle(s.buy, queue), Settle(s.sell, queue))
  }

  ghost predicate NoNew(bag: multiset<Request>, side: Direction) {
    forall r :: r in bag && r.New? ==> r.side != side
  }

  ghost predicate NoLife(ledger: Ledger, c: nat, side: Direction) {
    forall m :: m in ledger ==> !(ledger[m].clientId == c && ledger[m].side == side)
  }

  /** The one order of the client on a side of the book. */
  ghost predicate Sole(ledger: Ledger, c: nat, side: Direction, m: nat, id: nat, quantity: nat) {
    && m in ledger && ledger[m] == Life(c, id, side, quantity)
    && forall k :: k in ledger && ledger[k].clientId == c && ledger[k].side == side ==> k == m
  }

  /** Where an order is, according to its settled state: on its way, on the book, or nowhere. */
  ghost predicate Placed(o: OMOrder, side: Direction, bag: multiset<Request>, ledger: Ledger, c: nat) {
    match o.state
    case INVALID | DEAD => NoNew(bag, side) && NoLife(ledger, c, side)
    case PENDING_NEW =>
      var r := New(c, o.orderId, side, o.price, o.quantity);
      bag[r] == 1 && (forall k :: k in bag && k.New? && k.side == side ==> k == r) && NoLife(ledger, c, side)
    case LIVE | PENDING_CANCEL =>
      NoNew(bag, side) && exists m :: Sole(ledger, c, side, m, o.orderId, o.quantity)
  }

  /** A cancel is only on its way for an order that is waiting for it or is dead. */
  ghost predicate CancelAwaited(o: OMOrder, r: Request) {
    o.state != OMOrderState.INVALID && o.orderId == r.clientOrderId ==> o.state in {PENDING_CANCEL, DEAD}
  }

  ghost predicate BagOk(u: Setup, z: Sides, nextId: nat, bag: multiset<Request>) {
    forall r :: r in bag ==>
      && r.clientId == u.clientId && r.clientOrderId < nextId && Acceptable(Exchange.ConfigOf(u.symbol), r)
      && (r.Cancel? ==> CancelAwaited(z.buy, r) && CancelAwaited(z.sell, r))
  }

  ghost predicate InSync(u: Setup, z: Sides, nextId: nat, bag: multiset<Request>, ledger: Ledger) {
    && Placed(z.buy, BUY, bag, ledger, u.clientId) && Placed(z.sell, SELL, bag, ledger, u.clientId)
    && BagOk(u, z, nextId, bag)
    && forall m :: m in ledger && ledger[m].clientId == u.clientId ==> ledger[m].side != NoSide
  }

  ghost predicate SidesOk(s: Sides, nextId: nat) {
    && (s.buy.state != OMOrderState.INVALID ==> s.buy.side == BUY && s.buy.orderId < nextId)
    && (s.sell.state != OMOrderState.INVALID ==> s.sell.side == SELL && s.sell.orderId < nextId)
    && (s.buy.state != OMOrderState.INVALID && s.sell.state != OMOrderState.INVALID ==> s.buy.orderId != s.sell.orderId)
  }

  /** A queued response other than a rejected cancel is about the client's current order. */
  ghost predicate Owned(s: Sides, nextId: nat, r: Response) {
    && r.clientOrderId < nextId
    && (r.kind != CANCEL_REJECTED ==> r.side != NoSide && Concerns(r, OrderOn(s, r.side)))
  }

  ghost predicate QueueOk(s: Sides, nextId: nat, queue: seq<Response>) {
    && Tidy(s.buy, queue) && Tidy(s.sell, queue)
    && forall i :: 0 <= i < |queue| ==> Owned(s, nextId, queue[i])
  }

  ghost predicate Core(u: Setup, s: Sides, nextId: nat, queue: seq<Response>, bag: multiset<Request>, ledger: Ledger) {
    SidesOk(s, nextId) && QueueOk(s, nextId, queue) && InSync(u, Settled(s, queue), nextId, bag, ledger)
  }

  /** The index finds every order of the client, if not of the others. */
  ghost predicate BookOk(u: Setup, b: Book, ledger: Ledger) {
    Invariant(b) && IndexComplete(b, u.clientId) && Follows(ledger, b)
  }

  /** The client never commits to more than its limit. */
  ghost predicate WithinLimit(u: Setup, s: Sides, position: int) {
    position + Open(s.buy) <= u.risk.maxPosition && Open(s.sell) <= u.risk.maxPosition + position
  }

  ghost predicate Inv(u: Setup, s: System, ledger: Ledger) {
    && Core(u, s.sides, s.nextId, s.queue, s.bag, ledger)
    && BookOk(u, s.book, ledger)
    && WithinLimit(u, s.sides, s.position)
    && s.executed == s.position + Net(s.queue)
    && s.nextId <= MAX_ORDER_IDS
  }

  // ----- one response of the exchange -----

  /** How the ledger changes when an order of the client is executed. */
  lemma FillPlaced(z: OMOrder, side: Direction, bag: multiset<Request>, ledger: Ledger, c: nat, n: nat, r: Response)
    requires Placed(z, side, bag, ledger, c) && r.kind == FILLED && Lawful(ledger, n, r)
    ensures r.clientId == c && r.side == side ==>
              && z.state in {LIVE, PENDING_CANCEL} && z.orderId == r.clientOrderId
              && z.quantity == r.executed + r.remaining
              && Placed(Informed(z, r), side, bag, Record(ledger, r), c)
    ensures r.clientId != c || r.side != side ==> Placed(z, side, bag, Record(ledger, r), c)
  {
    var ledger' := Record(ledger, r);
    if z.state in {LIVE, PENDING_CANCEL} {
      var m :| Sole(ledger, c, side, m, z.orderId, z.quantity);
      if r.clientId == c && r.side == side {
        assert r.marketOrderId == m;
        assert r.remaining > 0 ==> Sole(ledger', c, side, m, z.orderId, r.remaining);
      } else {
        assert Sole(ledger', c, side, m, z.orderId, z.quantity);
      }
    }
  }

  /** Informing the settled orders of an execution keeps them in step with the exchange. */
  lemma FillSync(u: Setup, z: Sides, nextId: nat, bag: multiset<Request>, ledger: Ledger, n: nat, r: Response)
    requires InSync(u, z, nextId, bag, ledger) && SidesOk(z, nextId) && r.kind == FILLED && Lawful(ledger, n, r)
    ensures r.clientId == u.clientId ==>
              && Owned(z, nextId, r)
              && (Concerns(r, z.buy) ==> Expected(z.buy, r)) && (Concerns(r, z.sell) ==> Expected(z.sell, r))
              && InSync(u, OnResponse(z, r), nextId, bag, Record(ledger, r))
    ensures r.clientId != u.clientId ==> InSync(u, z, nextId, bag, Record(ledger, r))
  {
    hide Placed;
    FillPlaced(z.buy, BUY, bag, ledger, u.clientId, n, r);
    FillPlaced(z.sell, SELL, bag, ledger, u.clientId, n, r);
  }

  lemma OnResponseBoth(s: Sides, r: Response, nextId: nat)
    requires SidesOk(s, nextId)
    ensures OnResponse(s, r) == Sides(if Concerns(r, s.buy) then Informed(s.buy, r) else s.buy,
                                      if Concerns(r, s.sell) then Informed(s.sell, r) else s.sell)
    ensures SidesOk(OnResponse(s, r), nextId)
  {
  }

  lemma SettledOk(s: Sides, nextId: nat, queue: seq<Response>)
    requires SidesOk(s, nextId)
    ensures SidesOk(Settled(s, queue), nextId)
    ensures forall r: Response :: (Concerns(r, Settled(s, queue).buy) <==> Concerns(r, s.buy))
                                  && (Concerns(r, Settled(s, queue).sell) <==> Concerns(r, s.sell))
    ensures forall r :: Owned(Settled(s, queue), nextId, r) <==> Owned(s, nextId, r)
  {
    hide Settle;
    SettleKeeps(s.buy, queue);
    SettleKeeps(s.sell, queue);
  }

  /** A response that is expected joins the queue. */
  lemma QueueAppend(s: Sides, nextId: nat, queue: seq<Response>, r: Response)
    requires SidesOk(s, nextId) && QueueOk(s, nextId, queue) && Owned(s, nextId, r)
    requires var z := Settled(s, queue);
             (Concerns(r, z.buy) ==> Expected(z.buy, r)) && (Concerns(r, z.sell) ==> Expected(z.sell, r))
    ensures QueueOk(s, nextId, queue + [r])
    ensures Settled(s, queue + [r]) == OnResponse(Settled(s, queue), r)
  {
    hide Settle, Tidy, Expected, Owned;
    SettledOk(s, nextId, queue);
    OnResponseBoth(Settled(s, queue), r, nextId);
    TidyAppend(s.buy, queue, r);
    TidyAppend(s.sell, queue, r);
  }

  ghost predicate AllFills(rs: seq<Response>) {
    forall i :: 0 <= i < |rs| ==> rs[i].kind == FILLED
  }

  /** Any lawful executions, of this client's orders or of others, keep client and exchange
      in step. */
  lemma {:induction false} FillsKeep(u: Setup, s: Sides, nextId: nat, queue: seq<Response>, bag: multiset<Request>,
                                     ledger: Ledger, n: nat, rs: seq<Response>)
    requires Core(u, s, nextId, queue, bag, ledger) && AllLawful(ledger, n, rs) && AllFills(rs)
    ensures Core(u, s, nextId, queue + Mine(u.clientId, rs), bag, RecordAll(ledger, rs))
    decreases |rs|
  {
    if rs == [] {
      assert queue + [] == queue;
    } else {
      var r, z, rest := rs[0], Settled(s, queue), rs[1..];
      assert AllFills(rest) && AllLawful(Record(ledger, r), NextId(n, r), rest);
      assert RecordAll(ledger, rs) == RecordAll(Record(ledger, r), rest);
      MineStep(u.clientId, queue, rs);
      assert r.kind == FILLED && Lawful(ledger, n, r);
      hide InSync, QueueOk, Settled, Lawful, Record, AllLawful, RecordAll, Mine, AllFills;
      SettledOk(s, nextId, queue);
      FillSync(u, z, nextId, bag, ledger, n, r);
      if r.clientId == u.clientId {
        QueueAppend(s, nextId, queue, r);
        FillsKeep(u, s, nextId, queue + [r], bag, Record(ledger, r), NextId(n, r), rest);
      } else {
        FillsKeep(u, s, nextId, queue, bag, Record(ledger, r), NextId(n, r), rest);
      }
    }
  }

  lemma MineStep(c: nat, queue: seq<Response>, rs: seq<Response>)
    requires rs != []
    ensures queue + Mine(c, rs) == (if rs[0].clientId == c then queue + [rs[0]] else queue) + Mine(c, rs[1..])
  {
  }

  ghost predicate Below(ledger: Ledger, n: nat) {
    forall m :: m in ledger ==> m < n
  }

  /** The exchange accepts an order of the client: it moves from the bag to the book. */
  lemma AcceptPlaced(z: OMOrder, side: Direction, bag: multiset<Request>, ledger: Ledger, c: nat, n: nat,
                     r: Request, a: Response)
    requires Placed(z, side, bag, ledger, c) && r in bag && r.New? && r.clientId == c && r.quantity > 0
             && Below(ledger, n)
    requires a == Response(ACCEPTED, c, a.symbol, r.clientOrderId, n, r.side, a.price, 0, r.quantity)
    ensures r.side == side ==>
              && z.state == PENDING_NEW && z.orderId == r.clientOrderId && z.quantity == r.quantity
              && Placed(Informed(z, a), side, bag - multiset{r}, Record(ledger, a), c)
    ensures r.side != side ==> Placed(z, side, bag - multiset{r}, Record(ledger, a), c)
  {
    var ledger', bag' := Record(ledger, a), bag - multiset{r};
    if r.side == side {
      assert Sole(ledger', c, side, n, z.orderId, z.quantity);
    } else if z.state in {LIVE, PENDING_CANCEL} {
      var m :| Sole(ledger, c, side, m, z.orderId, z.quantity);
      assert Sole(ledger', c, side, m, z.orderId, z.quantity);
    }
  }

  lemma AcceptKeeps(u: Setup, s: Sides, nextId: nat, queue: seq<Response>, bag: multiset<Request>, ledger: Ledger,
                    n: nat, r: Request, a: Response)
    requires Core(u, s, nextId, queue, bag, ledger) && r in bag && r.New? && Below(ledger, n)
    requires a == Response(ACCEPTED, r.clientId, a.symbol, r.clientOrderId, n, r.side, a.price, 0, r.quantity)
    ensures Core(u, s, nextId, queue + [a], bag - multiset{r}, Record(ledger, a))
  {
    hide Placed, Record, Settled, QueueOk, CancelAwaited;
    var z := Settled(s, queue);
    SettledOk(s, nextId, queue);
    AcceptPlaced(z.buy, BUY, bag, ledger, u.clientId, n, r, a);
    AcceptPlaced(z.sell, SELL, bag, ledger, u.clientId, n, r, a);
    AcceptExpected(u, z, nextId, bag, ledger, n, r, a);
    QueueAppend(s, nextId, queue, a);
    AcceptLives(u, ledger, a);
  }

  lemma AcceptLives(u: Setup, ledger: Ledger, a: Response)
    requires forall m :: m in ledger && ledger[m].clientId == u.clientId ==> ledger[m].side != NoSide
    requires a.kind == ACCEPTED && (a.clientId == u.clientId ==> a.side != NoSide)
    ensures var ledger' := Record(ledger, a);
            forall m :: m in ledger' && ledger'[m].clientId == u.clientId ==> ledger'[m].side != NoSide
  {
  }

  /** The accepted order is the pending one of its side, and no other. */
  lemma AcceptExpected(u: Setup, z: Sides, nextId: nat, bag: multiset<Request>, ledger: Ledger, n: nat, r: Request,
                       a: Response)
    requires InSync(u, z, nextId, bag, ledger) && SidesOk(z, nextId) && r in bag && r.New? && Below(ledger, n)
    requires a == Response(ACCEPTED, r.clientId, a.symbol, r.clientOrderId, n, r.side, a.price, 0, r.quantity)
    ensures Owned(z, nextId, a)
    ensures (Concerns(a, z.buy) ==> Expected(z.buy, a)) && (Concerns(a, z.sell) ==> Expected(z.sell, a))
    ensures BagOk(u, OnResponse(z, a), nextId, bag - multiset{r})
  {
    AcceptPlaced(z.buy, BUY, bag, ledger, u.clientId, n, r, a);
    AcceptPlaced(z.sell, SELL, bag, ledger, u.clientId, n, r, a);
    hide Placed, Record;
    forall k | k in bag - multiset{r}
      ensures k in bag
              && (k.Cancel? ==> CancelAwaited(OnResponse(z, a).buy, k) && CancelAwaited(OnResponse(z, a).sell, k))
    {
    }
  }

  /** What the exchange does with orders of other clients does not concern this one. */
  lemma StrangerKeeps(u: Setup, s: Sides, nextId: nat, queue: seq<Response>, bag: multiset<Request>, ledger: Ledger,
                      n: nat, a: Response)
    requires Core(u, s, nextId, queue, bag, ledger) && a.clientId != u.clientId && Below(ledger, n)
             && Lawful(ledger, n, a)
    ensures Core(u, s, nextId, queue, bag, Record(ledger, a))
  {
    hide Settled, QueueOk, BagOk;
    var z := Settled(s, queue);
    StrangerPlaced(z.buy, BUY, bag, ledger, u.clientId, n, a);
    StrangerPlaced(z.sell, SELL, bag, ledger, u.clientId, n, a);
  }

  lemma StrangerPlaced(z: OMOrder, side: Direction, bag: multiset<Request>, ledger: Ledger, c: nat, n: nat, a: Response)
    requires Placed(z, side, bag, ledger, c) && a.clientId != c && Below(ledger, n) && Lawful(ledger, n, a)
    ensures Placed(z, side, bag, Record(ledger, a), c)
  {
    if z.state in {LIVE, PENDING_CANCEL} {
      var m :| Sole(ledger, c, side, m, z.orderId, z.quantity);
      assert Sole(Record(ledger, a), c, side, m, z.orderId, z.quantity);
    }
  }

  /** A request that is not a new order can leave the bag. */
  lemma CancelTaken(u: Setup, s: Sides, nextId: nat, queue: seq<Response>, bag: multiset<Request>, ledger: Ledger,
                    r: Request)
    requires Core(u, s, nextId, queue, bag, ledger) && r in bag && r.Cancel?
    ensures Core(u, s, nextId, queue, bag - multiset{r}, ledger)
    ensures var z := Settled(s, queue); CancelAwaited(z.buy, r) && CancelAwaited(z.sell, r) && r.clientOrderId < nextId
  {
    hide Settled, QueueOk, CancelAwaited, NoLife, Sole;
    var bag' := bag - multiset{r};
    assert forall k :: k in bag' ==> k in bag;
    assert forall k: Request :: k.New? ==> bag'[k] == bag[k];
  }

  /** An order of the client is withdrawn. */
  lemma WithdrawnPlaced(z: OMOrder, side: Direction, bag: multiset<Request>, ledger: Ledger, c: nat, n: nat,
                        a: Response)
    requires Placed(z, side, bag, ledger, c) && a.kind == CANCELED && Lawful(ledger, n, a) && a.clientId == c
    ensures a.side == side ==>
              && z.state in {LIVE, PENDING_CANCEL} && z.orderId == a.clientOrderId
              && Placed(Informed(z, a), side, bag, Record(ledger, a), c)
    ensures a.side != side ==> Placed(z, side, bag, Record(ledger, a), c)
  {
    if z.state in {LIVE, PENDING_CANCEL} {
      var m :| Sole(ledger, c, side, m, z.orderId, z.quantity);
      if a.side != side {
        assert Sole(Record(ledger, a), c, side, m, z.orderId, z.quantity);
      }
    }
  }

  lemma WithdrawnKeeps(u: Setup, s: Sides, nextId: nat, queue: seq<Response>, bag: multiset<Request>, ledger: Ledger,
                       n: nat, r: Request, a: Response)
    requires Core(u, s, nextId, queue, bag, ledger) && r.clientOrderId < nextId
    requires var z := Settled(s, queue); CancelAwaited(z.buy, r) && CancelAwaited(z.sell, r)
    requires a.kind == CANCELED && Lawful(ledger, n, a) && a.clientId == u.clientId
             && a.clientOrderId == r.clientOrderId
    ensures Core(u, s, nextId, queue + [a], bag, Record(ledger, a))
  {
    hide Placed, Settled, QueueOk;
    var z := Settled(s, queue);
    SettledOk(s, nextId, queue);
    WithdrawnPlaced(z.buy, BUY, bag, ledger, u.clientId, n, a);
    WithdrawnPlaced(z.sell, SELL, bag, ledger, u.clientId, n, a);
    QueueAppend(s, nextId, queue, a);
  }

  /** A cancel is rejected only for an order that is no longer on the book; the client's
      record, once it is up to date, says dead already. */
  lemma RejectedKeeps(u: Setup, s: Sides, nextId: nat, queue: seq<Response>, bag: multiset<Request>, ledger: Ledger,
                      r: Request, a: Response)
    requires Core(u, s, nextId, queue, bag, ledger) && r.clientOrderId < nextId
    requires var z := Settled(s, queue); CancelAwaited(z.buy, r) && CancelAwaited(z.sell, r)
    requires a.kind == CANCEL_REJECTED && a.clientOrderId == r.clientOrderId
    requires forall m :: m in ledger ==>
               !(ledger[m].clientId == u.clientId && ledger[m].clientOrderId == r.clientOrderId)
    ensures Core(u, s, nextId, queue + [a], bag, ledger)
  {
    hide Settled, QueueOk;
    var z := Settled(s, queue);
    SettledOk(s, nextId, queue);
    RejectedIsDead(z.buy, BUY, bag, ledger, u.clientId, r);
    RejectedIsDead(z.sell, SELL, bag, ledger, u.clientId, r);
    QueueAppend(s, nextId, queue, a);
    DeadUnchanged(z, a);
  }

  lemma RejectedIsDead(z: OMOrder, side: Direction, bag: multiset<Request>, ledger: Ledger, c: nat, r: Request)
    requires Placed(z, side, bag, ledger, c) && CancelAwaited(z, r)
    requires forall m :: m in ledger ==> !(ledger[m].clientId == c && ledger[m].clientOrderId == r.clientOrderId)
    ensures z.state != OMOrderState.INVALID && z.orderId == r.clientOrderId ==> z.state == DEAD
  {
  }

  lemma DeadUnchanged(z: Sides, a: Response)
    requires a.kind == CANCEL_REJECTED
    requires (Concerns(a, z.buy) ==> z.buy.state == DEAD) && (Concerns(a, z.sell) ==> z.sell.state == DEAD)
    ensures OnResponse(z, a) == z
  {
  }

  // ----- one request -----

  lemma {:induction false} MatchReportsFills(cfg: Config, t: Taker, h: HalfBooks.Half, index: map<Key, nat>)
    requires TicksOk(h)
    ensures AllFills(Match(cfg, t, h, index).responses)
    decreases t.quantity + |h.orders|
  {
    if !CanTrade(t, h) {
    } else {
      var first := FillFirst(cfg, t, h, index);
      MatchReportsFills(cfg, t.(quantity := first.left), first.half, first.index);
    }
  }

  lemma NewShape(cfg: Config, b: Book, r: Request)
    requires r.New? && cfg.band.IsValid() && Acceptable(cfg, r) && BookTicksOk(b)
    ensures var rs := Step(cfg, b, r).responses;
            rs != [] && rs[0] == Accepted(cfg, r, b.nextId) && AllFills(rs[1..])
  {
    hide Match, HalfBooks.Insert;
    PriceOfTick(cfg.band, r.price);
    var t := Taker(r.clientId, r.clientOrderId, b.nextId, r.side, cfg.band.ToTick(r.price), r.quantity);
    MatchReportsFills(cfg, t, HalfOf(b, Opposite(r.side)), b.index);
    var m := Match(cfg, t, HalfOf(b, Opposite(r.side)), b.index);
    assert ([Accepted(cfg, r, b.nextId)] + m.responses)[1..] == m.responses;
  }

  /** A cancel withdraws an order with its key or is rejected; when the index is complete for
      the client, it is rejected only if no such order rests. */
  lemma CancelShape(cfg: Config, b: Book, r: Request)
    requires r.Cancel? && Invariant(b) && BookTicksOk(b)
    ensures var rs := CancelOrder(cfg, b, r.clientId, r.clientOrderId).responses;
            && |rs| == 1 && rs[0].clientId == r.clientId && rs[0].clientOrderId == r.clientOrderId
            && (rs[0].kind == CANCELED
                || (&& rs[0].kind == CANCEL_REJECTED
                    && (IndexComplete(b, r.clientId) ==> KeyIsFree(b, (r.clientId, r.clientOrderId)))))
  {
    hide Invariant, IndexComplete, KeyIsFree, CancelOrder, BookTicksOk;
    CancelRejected(cfg, b, r.clientId, r.clientOrderId);
  }

  lemma LedgerBelow(b: Book, ledger: Ledger)
    requires Invariant(b) && Follows(ledger, b)
    ensures Below(ledger, b.nextId)
  {
    hide HalfBooks.WellFormed, IndexSound, Apart, HasOrders;
    forall m | m in ledger
      ensures m < b.nextId
    {
      assert HasId(b.bids.orders, m) || HasId(b.asks.orders, m);
    }
  }

  /** A life in the ledger is a resting order, and the other way round. */
  lemma LifeRests(b: Book, ledger: Ledger, key: Key)
    requires Follows(ledger, b)
    ensures KeyIsFree(b, key) <==> forall m :: m in ledger ==> (ledger[m].clientId, ledger[m].clientOrderId) != key
  {
    forall m | m in ledger
      ensures exists side: Direction, i ::
                && 0 <= i < |HalfOf(b, side).orders| && HalfOf(b, side).orders[i].marketOrderId == m
                && KeyOf(HalfOf(b, side).orders[i]) == (ledger[m].clientId, ledger[m].clientOrderId)
    {
      var side: Direction := if HasId(b.bids.orders, m) then BUY else SELL;
      var i :| 0 <= i < |HalfOf(b, side).orders| && HalfOf(b, side).orders[i].marketOrderId == m;
      assert HasOrder(ledger, side, HalfOf(b, side).orders[i]);
    }
    forall side: Direction, i | 0 <= i < |HalfOf(b, side).orders|
      ensures var o := HalfOf(b, side).orders[i];
              && o.marketOrderId in ledger
              && KeyOf(o) == (ledger[o.marketOrderId].clientId, ledger[o.marketOrderId].clientOrderId)
    {
      assert HasOrder(ledger, side, HalfOf(b, side).orders[i]);
    }
    if KeyIsFree(b, key) {
      forall m | m in ledger
        ensures (ledger[m].clientId, ledger[m].clientOrderId) != key
      {
        var side: Direction, i :| 0 <= i < |HalfOf(b, side).orders| && HalfOf(b, side).orders[i].marketOrderId == m
          && KeyOf(HalfOf(b, side).orders[i]) == (ledger[m].clientId, ledger[m].clientOrderId);
      }
    } else {
      assert !NotUsed(HalfOf(b, BUY).orders, key) || !NotUsed(HalfOf(b, SELL).orders, key);
    }
  }

  /** The id of an order on its way is not on the book yet. */
  lemma NewKeyIsFree(u: Setup, s: Sides, nextId: nat, queue: seq<Response>, bag: multiset<Request>, ledger: Ledger,
                     b: Book, r: Request)
    requires Core(u, s, nextId, queue, bag, ledger) && r in bag && r.New? && BookOk(u, b, ledger)
    ensures KeyIsFree(b, (r.clientId, r.clientOrderId))
  {
    hide Settled, QueueOk, Follows, KeyIsFree;
    SettledOk(s, nextId, queue);
    LifeRests(b, ledger, (r.clientId, r.clientOrderId));
    var z := Settled(s, queue);
    forall m | m in ledger
      ensures (ledger[m].clientId, ledger[m].clientOrderId) != (r.clientId, r.clientOrderId)
    {
      if ledger[m].clientId == u.clientId {
        LifeId(z.buy, BUY, bag, ledger, u.clientId, m);
        LifeId(z.sell, SELL, bag, ledger, u.clientId, m);
        PendingId(z.buy, BUY, bag, ledger, u.clientId, r);
        PendingId(z.sell, SELL, bag, ledger, u.clientId, r);
      }
    }
  }

  lemma LifeId(z: OMOrder, side: Direction, bag: multiset<Request>, ledger: Ledger, c: nat, m: nat)
    requires Placed(z, side, bag, ledger, c) && m in ledger && ledger[m].clientId == c
    ensures ledger[m].side == side ==> z.state in {LIVE, PENDING_CANCEL} && ledger[m].clientOrderId == z.orderId
  {
  }

  lemma PendingId(z: OMOrder, side: Direction, bag: multiset<Request>, ledger: Ledger, c: nat, r: Request)
    requires Placed(z, side, bag, ledger, c) && r in bag && r.New?
    ensures r.side == side ==> z.state == PENDING_NEW && r.clientOrderId == z.orderId
  {
  }

  /** The book after one request, and the reports it caused. */
  lemma BookServed(u: Setup, b: Book, ledger: Ledger, r: Request)
    requires BookOk(u, b, ledger) && Acceptable(Exchange.ConfigOf(u.symbol), r)
    requires r.New? && r.clientId == u.clientId ==> KeyIsFree(b, (r.clientId, r.clientOrderId))
    ensures BookTicksOk(b) && Below(ledger, b.nextId)
    ensures var done := BookStep(u, b, r);
            && done == Step(Exchange.ConfigOf(u.symbol), b, r)
            && AllLawful(ledger, b.nextId, done.responses) && BookOk(u, done.book, RecordAll(ledger, done.responses))
  {
    hide Step, Invariant, IndexComplete, Follows, KeyIsFree, BookTicksOk, AllLawful, RecordAll, Acceptable;
    var cfg := Exchange.ConfigOf(u.symbol);
    StepLawful(ledger, cfg, b, r);
    StepComplete(cfg, b, r, u.clientId);
    LedgerBelow(b, ledger);
  }

  /** A new order, of this client or another, is served. */
  lemma NewServed(u: Setup, s: System, ledger: Ledger, r: Request)
    requires Core(u, s.sides, s.nextId, s.queue, s.bag, ledger) && BookOk(u, s.book, ledger)
    requires r.New? && Acceptable(Exchange.ConfigOf(u.symbol), r)
    requires r.clientId == u.clientId ==> r in s.bag
    ensures var bag := if r.clientId == u.clientId then s.bag - multiset{r} else s.bag;
            var s' := Served(u, s.(bag := bag), r);
            var ledger' := RecordAll(ledger, BookStep(u, s.book, r).responses);
            Core(u, s'.sides, s'.nextId, s'.queue, bag, ledger') && BookOk(u, s'.book, ledger')
  {
    hide Step, Core, BookOk, Acceptable, KeyIsFree, BookTicksOk, Net, Mine, RecordAll, Below, AllFills, AllLawful;
    var cfg := Exchange.ConfigOf(u.symbol);
    if r.clientId == u.clientId {
      NewKeyIsFree(u, s.sides, s.nextId, s.queue, s.bag, ledger, s.book, r);
    }
    BookServed(u, s.book, ledger, r);
    NewShape(cfg, s.book, r);
    hide BookStep;
    NewReported(u, s.sides, s.nextId, s.queue, s.bag, ledger, s.book.nextId, r, BookStep(u, s.book, r).responses);
  }

  /** The acceptance and the executions that a new order causes. */
  lemma NewReported(u: Setup, s: Sides, nextId: nat, queue: seq<Response>, bag: multiset<Request>, ledger: Ledger,
                    n: nat, r: Request, rs: seq<Response>)
    requires Core(u, s, nextId, queue, bag, ledger) && r.New? && (r.clientId == u.clientId ==> r in bag)
    requires Below(ledger, n) && AllLawful(ledger, n, rs)
    requires rs != [] && rs[0] == Accepted(Exchange.ConfigOf(u.symbol), r, n) && AllFills(rs[1..])
    ensures Core(u, s, nextId, queue + Mine(u.clientId, rs),
                 if r.clientId == u.clientId then bag - multiset{r} else bag, RecordAll(ledger, rs))
  {
    hide Core, Lawful, Record, Below, AllFills;
    var a, rest := rs[0], rs[1..];
    if r.clientId == u.clientId {
      AcceptKeeps(u, s, nextId, queue, bag, ledger, n, r, a);
      FillsKeep(u, s, nextId, queue + [a], bag - multiset{r}, Record(ledger, a), NextId(n, a), rest);
      assert queue + [a] + Mine(u.clientId, rest) == queue + Mine(u.clientId, rs);
    } else {
      StrangerKeeps(u, s, nextId, queue, bag, ledger, n, a);
      FillsKeep(u, s, nextId, queue, bag, Record(ledger, a), NextId(n, a), rest);
      assert Mine(u.clientId, rest) == Mine(u.clientId, rs);
    }
  }

  /** A cancel is served. */
  lemma CancelServed(u: Setup, s: System, ledger: Ledger, r: Request)
    requires Core(u, s.sides, s.nextId, s.queue, s.bag, ledger) && BookOk(u, s.book, ledger)
    requires r.Cancel? && Acceptable(Exchange.ConfigOf(u.symbol), r)
    requires r.clientId == u.clientId ==> r in s.bag
    ensures var bag := if r.clientId == u.clientId then s.bag - multiset{r} else s.bag;
            var s' := Served(u, s.(bag := bag), r);
            var ledger' := RecordAll(ledger, BookStep(u, s.book, r).responses);
            Core(u, s'.sides, s'.nextId, s'.queue, bag, ledger') && BookOk(u, s'.book, ledger')
  {
    BookServed(u, s.book, ledger, r);
    CancelShape(Exchange.ConfigOf(u.symbol), s.book, r);
    LifeRests(s.book, ledger, (r.clientId, r.clientOrderId));
    hide CancelOrder, BookOk, Core, Acceptable, KeyIsFree, BookTicksOk, Net, Lawful, Record, Below, Mine;
    var rs, n := BookStep(u, s.book, r).responses, s.book.nextId;
    hide BookStep;
    OneLawful(ledger, n, rs);
    CancelAnswered(u, s.sides, s.nextId, s.queue, s.bag, ledger, n, r, rs[0]);
  }

  lemma OneLawful(ledger: Ledger, n: nat, rs: seq<Response>)
    requires |rs| == 1 && AllLawful(ledger, n, rs)
    ensures rs == [rs[0]] && Lawful(ledger, n, rs[0]) && RecordAll(ledger, rs) == Record(ledger, rs[0])
  {
    hide Lawful, Record;
    assert rs[1..] == [];
  }

  /** The one response that a cancel causes. */
  lemma CancelAnswered(u: Setup, s: Sides, nextId: nat, queue: seq<Response>, bag: multiset<Request>, ledger: Ledger,
                       n: nat, r: Request, a: Response)
    requires Core(u, s, nextId, queue, bag, ledger) && r.Cancel? && (r.clientId == u.clientId ==> r in bag)
    requires Below(ledger, n) && Lawful(ledger, n, a)
    requires a.clientId == r.clientId && a.clientOrderId == r.clientOrderId
    requires a.kind == CANCELED
          || (a.kind == CANCEL_REJECTED
              && (r.clientId == u.clientId ==> forall m :: m in ledger ==>
                   (ledger[m].clientId, ledger[m].clientOrderId) != (r.clientId, r.clientOrderId)))
    ensures Core(u, s, nextId, queue + Mine(u.clientId, [a]),
                 if r.clientId == u.clientId then bag - multiset{r} else bag, Record(ledger, a))
  {
    hide Core, Lawful, Below, Settled, CancelAwaited;
    OneResponse(u.clientId, [a]);
    if r.clientId != u.clientId {
      StrangerKeeps(u, s, nextId, queue, bag, ledger, n, a);
      assert queue + [] == queue;
    } else {
      CancelTaken(u, s, nextId, queue, bag, ledger, r);
      if a.kind == CANCELED {
        WithdrawnKeeps(u, s, nextId, queue, bag - multiset{r}, ledger, n, r, a);
      } else {
        RejectedKeeps(u, s, nextId, queue, bag - multiset{r}, ledger, r, a);
      }
    }
  }

  lemma OneResponse(c: nat, rs: seq<Response>)
    requires |rs| == 1
    ensures Mine(c, rs) == if rs[0].clientId == c then rs else []
  {
    assert rs[1..] == [];
  }

  // ----- the client's own steps -----

  /** Delivering the next response changes nothing that is still to come. */
  lemma DeliverKeeps(u: Setup, s: Sides, nextId: nat, queue: seq<Response>, bag: multiset<Request>, ledger: Ledger)
    requires Core(u, s, nextId, queue, bag, ledger) && queue != []
    ensures Core(u, OnResponse(s, queue[0]), nextId, queue[1..], bag, ledger)
  {
    hide InSync, Expected;
    var r, s' := queue[0], OnResponse(s, queue[0]);
    OnResponseBoth(s, r, nextId);
    assert Settled(s', queue[1..]) == Settled(s, queue);
    hide Settled, Tidy;
    forall i | 0 <= i < |queue[1..]|
      ensures Owned(s', nextId, queue[1..][i])
    {
      assert Owned(s, nextId, queue[i + 1]);
    }
    assert Tidy(s'.buy, queue[1..]) && Tidy(s'.sell, queue[1..]) by {
      TidyTail(s.buy, queue);
      TidyTail(s.sell, queue);
    }
  }

  lemma TidyTail(o: OMOrder, queue: seq<Response>)
    requires Tidy(o, queue) && queue != []
    ensures Tidy(if Concerns(queue[0], o) then Informed(o, queue[0]) else o, queue[1..])
    ensures Concerns(queue[0], o) ==> Expected(o, queue[0])
  {
  }

  /** An execution moves quantity from the order to the position, so the limit still holds. */
  lemma DeliverWithinLimit(u: Setup, s: Sides, nextId: nat, queue: seq<Response>, position: int)
    requires SidesOk(s, nextId) && QueueOk(s, nextId, queue) && queue != [] && WithinLimit(u, s, position)
    ensures var r := queue[0];
            WithinLimit(u, OnResponse(s, r), position + if r.kind == FILLED then Signed(r.side, r.executed) else 0)
  {
    OnResponseBoth(s, queue[0], nextId);
    TidyTail(s.buy, queue);
    TidyTail(s.sell, queue);
    hide Tidy;
    assert Owned(s, nextId, queue[0]);
  }

  /** The settled order and what is queued about it, after the client asks for its cancel. */
  lemma CancelPlaced(o: OMOrder, side: Direction, queue: seq<Response>, bag: multiset<Request>, ledger: Ledger, c: nat)
    requires o.state == LIVE && Tidy(o, queue) && Placed(Settle(o, queue), side, bag, ledger, c)
    ensures var o' := o.(state := PENDING_CANCEL);
            && Tidy(o', queue) && Placed(Settle(o', queue), side, bag, ledger, c)
            && Settle(o', queue).state in {PENDING_CANCEL, DEAD}
            && Settle(o', queue).orderId == o.orderId
  {
    SettleAfterCancel(o, queue);
    SettleKeeps(o, queue);
  }

  lemma BagAddsCancel(o: OMOrder, side: Direction, bag: multiset<Request>, ledger: Ledger, c: nat, k: Request)
    requires Placed(o, side, bag, ledger, c) && k.Cancel?
    ensures Placed(o, side, bag + multiset{k}, ledger, c)
  {
    var bag' := bag + multiset{k};
    hide Sole, NoLife;
    assert forall r: Request :: r.New? ==> bag'[r] == bag[r];
    assert forall r: Request :: r.New? ==> (r in bag' <==> r in bag);
  }

  lemma QuoteCancels(u: Setup, s: Sides, nextId: nat, queue: seq<Response>, bag: multiset<Request>, ledger: Ledger,
                     side: Direction)
    requires Core(u, s, nextId, queue, bag, ledger) && OrderOn(s, side).state == LIVE
    requires u.clientId < MAX_CLIENTS && nextId <= MAX_ORDER_IDS
    ensures var o := OrderOn(s, side);
            Core(u, WithOrder(s, side, o.(state := PENDING_CANCEL)), nextId, queue,
                 bag + multiset{Cancel(u.clientId, o.orderId)}, ledger)
  {
    hide Placed, Tidy, Settle;
    var o, k := OrderOn(s, side), Cancel(u.clientId, OrderOn(s, side).orderId);
    var s', bag' := WithOrder(s, side, o.(state := PENDING_CANCEL)), bag + multiset{k};
    CancelPlaced(o, side, queue, bag, ledger, u.clientId);
    var z, z' := Settled(s, queue), Settled(s', queue);
    SettledOk(s, nextId, queue);
    SettledOk(s', nextId, queue);
    BagAddsCancel(z'.buy, BUY, bag, ledger, u.clientId, k);
    BagAddsCancel(z'.sell, SELL, bag, ledger, u.clientId, k);
    forall i | 0 <= i < |queue|
      ensures Owned(s', nextId, queue[i])
    {
      assert Owned(s, nextId, queue[i]);
    }
    forall r | r in bag'
      ensures && r.clientId == u.clientId && r.clientOrderId < nextId && Acceptable(Exchange.ConfigOf(u.symbol), r)
              && (r.Cancel? ==> CancelAwaited(z'.buy, r) && CancelAwaited(z'.sell, r))
    {
      assert r == k || r in bag;
    }
  }

  /** No response still queued other than a rejected cancel is about a side without an order. */
  lemma SideIsQuiet(s: Sides, nextId: nat, queue: seq<Response>, side: Direction)
    requires SidesOk(s, nextId) && QueueOk(s, nextId, queue) && OrderOn(s, side).state in {OMOrderState.INVALID, DEAD}
    ensures forall i :: 0 <= i < |queue| && queue[i].kind != CANCEL_REJECTED ==> queue[i].side != side
    ensures Settle(OrderOn(s, side), queue) == OrderOn(s, side)
  {
    var o := OrderOn(s, side);
    if o.state == DEAD {
      DeadStaysDead(o, queue);
    } else {
      SettleOthers(o, queue);
    }
    hide Tidy, Settle;
    forall i | 0 <= i < |queue| && queue[i].kind != CANCEL_REJECTED
      ensures queue[i].side != side
    {
      assert Owned(s, nextId, queue[i]);
    }
  }

  lemma BagAddsNew(o: OMOrder, side: Direction, bag: multiset<Request>, ledger: Ledger, c: nat, k: Request)
    requires Placed(o, side, bag, ledger, c) && k.New? && k.side != side
    ensures Placed(o, side, bag + multiset{k}, ledger, c)
  {
    var bag' := bag + multiset{k};
    hide Sole, NoLife;
    assert forall r: Request :: r != k ==> bag'[r] == bag[r];
    assert forall r: Request :: r != k ==> (r in bag' <==> r in bag);
  }

  lemma QuotePlaces(o: OMOrder, side: Direction, bag: multiset<Request>, ledger: Ledger, c: nat, o': OMOrder)
    requires Placed(o, side, bag, ledger, c) && o.state in {OMOrderState.INVALID, DEAD} && o'.state == PENDING_NEW
    ensures Placed(o', side, bag + multiset{New(c, o'.orderId, side, o'.price, o'.quantity)}, ledger, c)
  {
    var k := New(c, o'.orderId, side, o'.price, o'.quantity);
    assert k !in bag;
  }

  lemma QuoteSends(u: Setup, s: Sides, nextId: nat, queue: seq<Response>, bag: multiset<Request>, ledger: Ledger,
                   side: Direction, price: int, quantity: nat)
    requires Core(u, s, nextId, queue, bag, ledger) && OrderOn(s, side).state in {OMOrderState.INVALID, DEAD}
    requires Acceptable(Exchange.ConfigOf(u.symbol), New(u.clientId, nextId, side, price, quantity))
    ensures Core(u, WithOrder(s, side, OMOrder(nextId, side, price, quantity, PENDING_NEW)), nextId + 1, queue,
                 bag + multiset{New(u.clientId, nextId, side, price, quantity)}, ledger)
  {
    hide Placed, Tidy, Settle, Acceptable;
    var o, o' := OrderOn(s, side), OMOrder(nextId, side, price, quantity, PENDING_NEW);
    var k, s' := New(u.clientId, nextId, side, price, quantity), WithOrder(s, side, o');
    var bag' := bag + multiset{k};
    SideIsQuiet(s, nextId, queue, side);
    assert forall i :: 0 <= i < |queue| ==> Owned(s, nextId, queue[i]);
    SettleOthers(o', queue);
    SettledOk(s, nextId, queue);
    QuotePlaces(o, side, bag, ledger, u.clientId, o');
    BagAddsNew(Settle(OrderOn(s, Opposite(side)), queue), Opposite(side), bag, ledger, u.clientId, k);
    forall i | 0 <= i < |queue|
      ensures Owned(s', nextId + 1, queue[i])
    {
      assert Owned(s, nextId, queue[i]);
    }
    var z' := Settled(s', queue);
    forall r | r in bag'
      ensures && r.clientId == u.clientId && r.clientOrderId < nextId + 1 && Acceptable(Exchange.ConfigOf(u.symbol), r)
              && (r.Cancel? ==> CancelAwaited(z'.buy, r) && CancelAwaited(z'.sell, r))
    {
      assert r == k || r in bag;
    }
  }

  /** A quote that is sent passed the risk check and the band. */
  lemma SentQuote(u: Setup, s: System, side: Direction, price: Option<int>, quantity: nat, totalPnl: real)
    requires Enabled(u, s, Quote(side, price, quantity, totalPnl)) && u.Valid()
    requires SendsNew(Quoted(u, s, side, price, quantity, totalPnl))
    ensures price.Some? && PassesBand(DEFAULT_PRICE_BAND, price.value)
    ensures OrderOn(s.sides, side).state in {OMOrderState.INVALID, DEAD}
    ensures CheckPreTradeRisk(u.risk, s.position, totalPnl, side, quantity) == ALLOWED
    ensures Acceptable(Exchange.ConfigOf(u.symbol), New(u.clientId, s.nextId, side, price.value, quantity))
    ensures s.position + Signed(side, quantity) <= u.risk.maxPosition
    ensures 0 <= u.risk.maxPosition + s.position + Signed(side, quantity)
  {
  }

  lemma QuoteKeeps(u: Setup, s: System, ledger: Ledger, side: Direction, price: Option<int>, quantity: nat,
                   totalPnl: real)
    requires Inv(u, s, ledger) && u.Valid() && Enabled(u, s, Quote(side, price, quantity, totalPnl))
    ensures Inv(u, Do(u, s, Quote(side, price, quantity, totalPnl)), ledger)
  {
    hide Core, BookOk, Net, CheckPreTradeRisk, PassesBand, Acceptable;
    var o := OrderOn(s.sides, side);
    QuoteCases(u, s, side, price, quantity, totalPnl);
    if o.state == LIVE {
      QuoteCancels(u, s.sides, s.nextId, s.queue, s.bag, ledger, side);
    } else if SendsNew(Quoted(u, s, side, price, quantity, totalPnl)) {
      SentQuote(u, s, side, price, quantity, totalPnl);
      QuoteSends(u, s.sides, s.nextId, s.queue, s.bag, ledger, side, price.value, quantity);
    }
    hide Quoted, SendsNew;
  }

  /** A quote cancels a live order, sends a new one, or changes nothing. */
  lemma QuoteCases(u: Setup, s: System, side: Direction, price: Option<int>, quantity: nat, totalPnl: real)
    ensures var o, moved := OrderOn(s.sides, side), Quoted(u, s, side, price, quantity, totalPnl);
            if SendsNew(moved) then
              && o.state != LIVE && price.Some?
              && moved == Moved(OMOrder(s.nextId, side, price.value, quantity, PENDING_NEW),
                                Some(New(u.clientId, s.nextId, side, price.value, quantity)))
            else
              || moved == Moved(o, None)
              || (o.state == LIVE && moved == Moved(o.(state := PENDING_CANCEL), Some(Cancel(u.clientId, o.orderId))))
  {
    hide CheckPreTradeRisk, PassesBand;
  }

  lemma SkipKeeps(u: Setup, s: System, ledger: Ledger)
    requires Inv(u, s, ledger) && s.nextId < MAX_ORDER_IDS
    ensures Inv(u, s.(nextId := s.nextId + 1), ledger)
  {
    hide BookOk, Net, Placed, Tidy, Settle;
    forall i | 0 <= i < |s.queue|
      ensures Owned(s.sides, s.nextId + 1, s.queue[i])
    {
      assert Owned(s.sides, s.nextId, s.queue[i]);
    }
  }

  lemma {:induction false} NetConcat(a: seq<Response>, b: seq<Response>)
    ensures Net(a + b) == Net(a) + Net(b)
  {
    if a == [] {
      assert a + b == b;
    } else {
      assert (a + b)[1..] == a[1..] + b;
      NetConcat(a[1..], b);
    }
  }

  lemma StepKeeps(u: Setup, s: System, ledger: Ledger, a: Action) returns (ledger': Ledger)
    requires Inv(u, s, ledger) && u.Valid() && Enabled(u, s, a)
    ensures Inv(u, Do(u, s, a), ledger')
  {
    hide Inv, Served, BookStep, Quoted, RecordAll, Acceptable, KeyIsFree;
    ledger' := ledger;
    match a {
      case Quote(side, price, quantity, totalPnl) =>
        QuoteKeeps(u, s, ledger, side, price, quantity, totalPnl);
      case SkipId =>
        SkipKeeps(u, s, ledger);
      case Deliver =>
        DeliveryKeeps(u, s, ledger);
      case Take(r) =>
        TakenIsMine(u, s, ledger, r);
        ServedKeeps(u, s, ledger, r);
        ledger' := RecordAll(ledger, BookStep(u, s.book, r).responses);
      case Other(r) =>
        ServedKeeps(u, s, ledger, r);
        ledger' := RecordAll(ledger, BookStep(u, s.book, r).responses);
    }
  }

  lemma DeliveryKeeps(u: Setup, s: System, ledger: Ledger)
    requires Inv(u, s, ledger) && u.Valid() && s.queue != []
    ensures Inv(u, Do(u, s, Deliver), ledger)
  {
    assert SidesOk(s.sides, s.nextId) && QueueOk(s.sides, s.nextId, s.queue);
    hide Core, BookOk, SidesOk, QueueOk, WithinLimit;
    DeliverKeeps(u, s.sides, s.nextId, s.queue, s.bag, ledger);
    DeliverWithinLimit(u, s.sides, s.nextId, s.queue, s.position);
  }

  lemma TakenIsMine(u: Setup, s: System, ledger: Ledger, r: Request)
    requires Inv(u, s, ledger) && r in s.bag
    ensures r.clientId == u.clientId && Acceptable(Exchange.ConfigOf(u.symbol), r)
  {
    hide Placed, SidesOk, QueueOk, Settled, BookOk, Acceptable;
  }

  lemma ServedKeeps(u: Setup, s: System, ledger: Ledger, r: Request)
    requires Inv(u, s, ledger) && Acceptable(Exchange.ConfigOf(u.symbol), r)
    requires r.clientId == u.clientId ==> r in s.bag
    ensures var bag := if r.clientId == u.clientId then s.bag - multiset{r} else s.bag;
            Inv(u, Served(u, s.(bag := bag), r), RecordAll(ledger, BookStep(u, s.book, r).responses))
  {
    hide Core, BookOk, WithinLimit, BookStep, RecordAll, Mine, Net, Acceptable, KeyIsFree;
    if r.New? {
      NewServed(u, s, ledger, r);
    } else {
      CancelServed(u, s, ledger, r);
    }
    NetConcat(s.queue, Mine(u.clientId, BookStep(u, s.book, r).responses));
  }

  lemma StartsWell(u: Setup)
    ensures Inv(u, START, map[])
  {
  }

  /** The invariant holds in every reachable state. */
  lemma {:induction false} Reachable(u: Setup, actions: seq<Action>) returns (ledger: Ledger)
    requires u.Valid() && Possible(u, actions)
    ensures Inv(u, Run(u, actions), ledger)
    decreases |actions|
  {
    hide Inv, Enabled, Do;
    if actions == [] {
      StartsWell(u);
      ledger := map[];
    } else {
      var before, a := actions[..|actions| - 1], actions[|actions| - 1];
      var l := Reachable(u, before);
      ledger := StepKeeps(u, Run(u, before), l, a);
    }
  }

  // ----- the theorems -----

  lemma {:induction false} NetUnderway(s: Sides, nextId: nat, queue: seq<Response>)
    requires forall i :: 0 <= i < |queue| ==> Owned(s, nextId, queue[i])
    ensures Net(queue) <= Underway(s.buy, queue) && 0 <= Net(queue) + Underway(s.sell, queue)
    decreases |queue|
  {
    if queue == [] {
    } else {
      assert Owned(s, nextId, queue[0]);
      assert forall i :: 0 <= i < |queue[1..]| ==> queue[1..][i] == queue[i + 1];
      NetUnderway(s, nextId, queue[1..]);
    }
  }

  /** The client's resting orders on one side of the book. */
  ghost predicate RestsAt(u: Setup, b: Book, side: Direction, i: nat) {
    i < |HalfOf(b, side).orders| && HalfOf(b, side).orders[i].clientId == u.clientId
  }

  /** A resting order of the client is the current order of its side. */
  lemma RestingIsCurrent(u: Setup, s: System, ledger: Ledger, side: Direction, i: nat)
    requires Inv(u, s, ledger) && RestsAt(u, s.book, side, i)
    ensures var o, x := OrderOn(s.sides, side), HalfOf(s.book, side).orders[i];
            var z := Settle(o, s.queue);
            && z.state in {LIVE, PENDING_CANCEL} && z.orderId == o.orderId == x.clientOrderId
            && o.state in {PENDING_NEW, LIVE, PENDING_CANCEL}
            && z.quantity == x.quantity && o.quantity == Underway(o, s.queue) + x.quantity
            && Sole(ledger, u.clientId, side, x.marketOrderId, x.clientOrderId, x.quantity)
            && NoNew(s.bag, side)
  {
    hide Invariant, IndexComplete, Settle, Tidy, Underway;
    var o, x := OrderOn(s.sides, side), HalfOf(s.book, side).orders[i];
    assert HasOrder(ledger, side, x);
    var z := Settle(o, s.queue);
    LifeId(z, side, s.bag, ledger, u.clientId, x.marketOrderId);
    var m :| Sole(ledger, u.clientId, side, m, z.orderId, z.quantity);
    OpenCovers(o, s.queue);
    SettleKeeps(o, s.queue);
    if o.state == DEAD {
      DeadStaysDead(o, s.queue);
    }
  }

  /** The position limit holds end to end. Over every interleaving of quotes, matching,
      cancels and delayed responses, the position the client knows and the position it really
      has, counting executions it has not heard of, stay within the limit, and would even if
      all that rests on one side of the book were executed now. */
  lemma PositionLimitHolds(u: Setup, actions: seq<Action>)
    requires u.Valid() && Possible(u, actions)
    ensures var s, limit: int := Run(u, actions), u.risk.maxPosition;
            && -limit <= s.position <= limit && -limit <= s.executed <= limit
            && (forall i: nat :: RestsAt(u, s.book, BUY, i) ==> s.executed + s.book.bids.orders[i].quantity <= limit)
            && (forall i: nat :: RestsAt(u, s.book, SELL, i) ==> -limit <= s.executed - s.book.asks.orders[i].quantity)
  {
    var ledger := Reachable(u, actions);
    var s := Run(u, actions);
    hide Run, Possible, Inv;
    UnderwayWithinLimit(u, s, ledger);
    forall i: nat | RestsAt(u, s.book, BUY, i)
      ensures s.executed + s.book.bids.orders[i].quantity <= u.risk.maxPosition
    {
      RestingWithinLimit(u, s, ledger, BUY, i);
    }
    forall i: nat | RestsAt(u, s.book, SELL, i)
      ensures 0 <= u.risk.maxPosition + s.executed - s.book.asks.orders[i].quantity
    {
      RestingWithinLimit(u, s, ledger, SELL, i);
    }
  }

  /** The executions on their way are covered by what the client still counts as open. */
  lemma UnderwayWithinLimit(u: Setup, s: System, ledger: Ledger)
    requires Inv(u, s, ledger)
    ensures var limit: int := u.risk.maxPosition;
            && -limit <= s.position <= limit && -limit <= s.executed <= limit
            && s.executed <= s.position + Underway(s.sides.buy, s.queue)
            && s.executed >= s.position - Underway(s.sides.sell, s.queue)
  {
    hide Settle, Underway, Tidy, Net, InSync, BookOk;
    assert QueueOk(s.sides, s.nextId, s.queue);
    NetUnderway(s.sides, s.nextId, s.queue);
    OpenCovers(s.sides.buy, s.queue);
    OpenCovers(s.sides.sell, s.queue);
  }

  lemma RestingWithinLimit(u: Setup, s: System, ledger: Ledger, side: Direction, i: nat)
    requires Inv(u, s, ledger) && RestsAt(u, s.book, side, i)
    ensures side == BUY ==> s.executed + s.book.bids.orders[i].quantity <= u.risk.maxPosition
    ensures side == SELL ==> 0 <= u.risk.maxPosition + s.executed - s.book.asks.orders[i].quantity
  {
    RestingIsCurrent(u, s, ledger, side, i);
    UnderwayWithinLimit(u, s, ledger);
    assert QueueOk(s.sides, s.nextId, s.queue);
    OpenCovers(OrderOn(s.sides, side), s.queue);
    hide Core, BookOk, Settle, Underway, Tidy;
  }

  // ----- prices -----

  /** Whatever of the client rests on a side, rests at the price of its current order there. */
  ghost predicate PricesOk(u: Setup, s: System) {
    forall side: Direction, i: nat :: RestsAt(u, s.book, side, i) ==>
      DEFAULT_PRICE_BAND.ToPrice(HalfOf(s.book, side).orders[i].tick) == OrderOn(s.sides, side).price
  }

  /** A quote gives a side another price only when nothing rests there. */
  lemma QuotePrices(u: Setup, s: System, ledger: Ledger, side: Direction, price: Option<int>, quantity: nat,
                    totalPnl: real)
    requires Inv(u, s, ledger) && PricesOk(u, s)
    ensures var moved := Quoted(u, s, side, price, quantity, totalPnl);
            PricesOk(u, s.(sides := WithOrder(s.sides, side, moved.order)))
  {
    QuoteCases(u, s, side, price, quantity, totalPnl);
    hide Inv, RestsAt, Quoted, CheckPreTradeRisk, PassesBand, PriceBand.ToPrice;
    var s' := s.(sides := WithOrder(s.sides, side, Quoted(u, s, side, price, quantity, totalPnl).order));
    forall on: Direction, i: nat | RestsAt(u, s'.book, on, i)
      ensures OrderOn(s'.sides, on).price == OrderOn(s.sides, on).price
    {
      if on == side && SendsNew(Quoted(u, s, side, price, quantity, totalPnl)) {
        RestingIsCurrent(u, s, ledger, side, i);
        SendsOnlyWhenNone(u, s, side, price, quantity, totalPnl);
        assert false;
      }
    }
  }

  lemma SendsOnlyWhenNone(u: Setup, s: System, side: Direction, price: Option<int>, quantity: nat, totalPnl: real)
    requires SendsNew(Quoted(u, s, side, price, quantity, totalPnl))
    ensures OrderOn(s.sides, side).state in {OMOrderState.INVALID, DEAD}
  {
    hide CheckPreTradeRisk, PassesBand;
  }

  /** A request leaves what rests at its price, and a new order of the client rests at the price it was
      sent with. */
  lemma ServedPrices(u: Setup, s: System, ledger: Ledger, r: Request, done: Outcome)
    requires Inv(u, s, ledger) && PricesOk(u, s) && (r.clientId == u.clientId ==> r in s.bag)
    requires BookLaws.Honoured(Exchange.ConfigOf(u.symbol), s.book, r, done)
    ensures PricesOk(u, s.(book := done.book))
  {
    hide Inv, BookLaws.Honoured, PriceBand.ToPrice;
    var book := done.book;
    BookLaws.RestsFrom(Exchange.ConfigOf(u.symbol), s.book, r, done);
    forall side: Direction, i: nat | RestsAt(u, book, side, i)
      ensures DEFAULT_PRICE_BAND.ToPrice(HalfOf(book, side).orders[i].tick) == OrderOn(s.sides, side).price
    {
      var x := HalfOf(book, side).orders[i];
      assert x in HalfOf(book, side).orders;
      if BookLaws.StillThere(HalfOf(s.book, side).orders, x) {
        var k :| 0 <= k < |HalfOf(s.book, side).orders|
              && HalfOf(s.book, side).orders[k] == x.(quantity := HalfOf(s.book, side).orders[k].quantity);
        assert RestsAt(u, s.book, side, k);
      } else {
        OneOnItsWay(u, s, ledger, side, r);
      }
    }
  }

  lemma PriceStep(u: Setup, s: System, ledger: Ledger, a: Action)
    requires Inv(u, s, ledger) && PricesOk(u, s) && u.Valid() && Enabled(u, s, a)
    ensures PricesOk(u, Do(u, s, a))
  {
    match a {
      case Quote(side, price, quantity, totalPnl) =>
        QuotePrices(u, s, ledger, side, price, quantity, totalPnl);
        hide Inv, Quoted, PriceBand.ToPrice;
      case SkipId =>
      case Deliver =>
        hide Inv, PriceBand.ToPrice;
        assert forall on: Direction :: OrderOn(OnResponse(s.sides, s.queue[0]), on).price == OrderOn(s.sides, on).price;
      case Take(r) =>
        TakenIsMine(u, s, ledger, r);
        BookHonours(u, s, ledger, r);
        ServedPrices(u, s, ledger, r, BookStep(u, s.book, r));
        hide Inv, BookStep, PriceBand.ToPrice;
      case Other(r) =>
        BookHonours(u, s, ledger, r);
        ServedPrices(u, s, ledger, r, BookStep(u, s.book, r));
        hide Inv, BookStep, PriceBand.ToPrice;
    }
  }

  lemma BookHonours(u: Setup, s: System, ledger: Ledger, r: Request)
    requires Inv(u, s, ledger) && Acceptable(Exchange.ConfigOf(u.symbol), r)
    ensures BookLaws.Honoured(Exchange.ConfigOf(u.symbol), s.book, r, BookStep(u, s.book, r))
  {
    hide Core, Invariant, IndexComplete, Follows, Step, Acceptable, BookLaws.Honoured;
    BookLaws.StepIsHonoured(Exchange.ConfigOf(u.symbol), s.book, r);
  }

  /** Prices agree in every reachable state. */
  lemma {:induction false} PricesAgree(u: Setup, actions: seq<Action>)
    requires u.Valid() && Possible(u, actions)
    ensures PricesOk(u, Run(u, actions))
    decreases |actions|
  {
    hide Inv, Enabled, Do, PricesOk;
    if actions == [] {
      NothingRests(u);
    } else {
      var before, a := actions[..|actions| - 1], actions[|actions| - 1];
      PricesAgree(u, before);
      var ledger := Reachable(u, before);
      PriceStep(u, Run(u, before), ledger, a);
    }
  }

  lemma NothingRests(u: Setup)
    ensures PricesOk(u, START)
  {
  }

  /** The new order on its way is the client's current order of its side, not answered yet. */
  ghost predicate OnItsWay(u: Setup, s: System, side: Direction, r: Request) {
    var o := OrderOn(s.sides, side);
    && r == New(u.clientId, o.orderId, side, o.price, o.quantity)
    && s.bag[r] == 1 && (forall k :: k in s.bag && k.New? && k.side == side ==> k == r)
    && o.state == PENDING_NEW && Underway(o, s.queue) == 0
    && forall i: nat :: !RestsAt(u, s.book, side, i)
  }

  /** The order that rests is the client's current order of its side, and the only one there. */
  ghost predicate SoleResting(u: Setup, s: System, side: Direction, i: nat)
    requires RestsAt(u, s.book, side, i)
  {
    var o, x := OrderOn(s.sides, side), HalfOf(s.book, side).orders[i];
    && o.state in {PENDING_NEW, LIVE, PENDING_CANCEL}
    && o.orderId == x.clientOrderId && DEFAULT_PRICE_BAND.ToPrice(x.tick) == o.price
    && o.quantity == x.quantity + Underway(o, s.queue)
    && NoNew(s.bag, side) && forall j: nat :: RestsAt(u, s.book, side, j) ==> j == i
  }

  /** The order is done, if the client does not know it yet: what is queued executes all of it
      or cancels the rest. */
  ghost predicate Done(s: System, side: Direction) {
    var o := OrderOn(s.sides, side);
    || o.state in {OMOrderState.INVALID, DEAD}
    || o.quantity == Underway(o, s.queue)
    || exists i :: 0 <= i < |s.queue| && Concerns(s.queue[i], o) && s.queue[i].kind == CANCELED
  }

  /** At most one working order per side. What a side has at the exchange is the client's current
      order and nothing else: it is on its way with the quantity the client knows, or it rests
      with that quantity but for the executions on their way, or it is done. */
  lemma OneWorkingOrder(u: Setup, actions: seq<Action>, side: Direction)
    requires u.Valid() && Possible(u, actions)
    ensures var s := Run(u, actions);
            && (forall r :: r in s.bag && r.New? && r.side == side ==> OnItsWay(u, s, side, r))
            && (forall i: nat :: RestsAt(u, s.book, side, i) ==> SoleResting(u, s, side, i))
            && (NoNew(s.bag, side) && (forall i: nat :: !RestsAt(u, s.book, side, i)) ==> Done(s, side))
  {
    var ledger := Reachable(u, actions);
    PricesAgree(u, actions);
    var s := Run(u, actions);
    hide Run, Possible, Inv, OnItsWay, SoleResting, NoNew, Done, PricesOk;
    forall r | r in s.bag && r.New? && r.side == side
      ensures OnItsWay(u, s, side, r)
    {
      OneOnItsWay(u, s, ledger, side, r);
    }
    forall i: nat | RestsAt(u, s.book, side, i)
      ensures SoleResting(u, s, side, i)
    {
      OneResting(u, s, ledger, side, i);
    }
    if NoNew(s.bag, side) && forall i: nat :: !RestsAt(u, s.book, side, i) {
      NoneIsDone(u, s, ledger, side);
    }
  }

  lemma OneResting(u: Setup, s: System, ledger: Ledger, side: Direction, i: nat)
    requires Inv(u, s, ledger) && PricesOk(u, s) && RestsAt(u, s.book, side, i)
    ensures SoleResting(u, s, side, i)
  {
    hide Inv, Settle, Underway, NoNew, Sole, PriceBand.ToPrice;
    RestingIsCurrent(u, s, ledger, side, i);
    forall j: nat | RestsAt(u, s.book, side, j)
      ensures j == i
    {
      SameResting(u, s, ledger, side, i, j);
    }
  }

  lemma SameResting(u: Setup, s: System, ledger: Ledger, side: Direction, i: nat, j: nat)
    requires Inv(u, s, ledger) && RestsAt(u, s.book, side, i) && RestsAt(u, s.book, side, j)
    ensures i == j
  {
    RestingIsCurrent(u, s, ledger, side, i);
    RestingIsCurrent(u, s, ledger, side, j);
    hide Core, Invariant;
    SameMarketId(s.book, side, i, j);
  }

  lemma OneOnItsWay(u: Setup, s: System, ledger: Ledger, side: Direction, r: Request)
    requires Inv(u, s, ledger) && r in s.bag && r.New? && r.side == side
    ensures OnItsWay(u, s, side, r)
  {
    forall i: nat
      ensures !RestsAt(u, s.book, side, i)
    {
      if RestsAt(u, s.book, side, i) {
        RestingIsCurrent(u, s, ledger, side, i);
        assert false;
      }
    }
    hide BookOk, WithinLimit, Net, Settle, Tidy, Underway, RestsAt;
    var o := OrderOn(s.sides, side);
    assert Placed(Settle(o, s.queue), side, s.bag, ledger, u.clientId) && Tidy(o, s.queue);
    SettleKeeps(o, s.queue);
    PendingIsUnanswered(o, s.queue);
  }

  lemma LifeHasOrder(u: Setup, b: Book, ledger: Ledger, m: nat)
    requires Follows(ledger, b) && m in ledger && ledger[m].clientId == u.clientId && ledger[m].side != NoSide
    ensures exists i: nat :: RestsAt(u, b, ledger[m].side, i)
  {
    var side: Direction := if HasId(b.bids.orders, m) then BUY else SELL;
    var i :| 0 <= i < |HalfOf(b, side).orders| && HalfOf(b, side).orders[i].marketOrderId == m;
    assert HasOrder(ledger, side, HalfOf(b, side).orders[i]);
    assert RestsAt(u, b, side, i);
  }

  /** A side with nothing on its way and nothing resting has no life in the ledger. */
  lemma NoneIsDone(u: Setup, s: System, ledger: Ledger, side: Direction)
    requires Inv(u, s, ledger) && NoNew(s.bag, side) && forall i: nat :: !RestsAt(u, s.book, side, i)
    ensures Done(s, side)
  {
    var o := OrderOn(s.sides, side);
    var z := Settle(o, s.queue);
    assert Placed(z, side, s.bag, ledger, u.clientId) && Tidy(o, s.queue);
    hide WithinLimit, Net, Settle, Tidy, Underway, Core;
    if z.state in {LIVE, PENDING_CANCEL} {
      var m :| Sole(ledger, u.clientId, side, m, z.orderId, z.quantity);
      LifeHasOrder(u, s.book, ledger, m);
      assert false;
    }
    if o.state !in {OMOrderState.INVALID, DEAD} {
      SettleKeeps(o, s.queue);
      OpenCovers(o, s.queue);
      DoneOrCanceled(o, s.queue);
    }
  }

  lemma SameMarketId(b: Book, side: Direction, i: nat, j: nat)
    requires Invariant(b) && i < |HalfOf(b, side).orders| && j < |HalfOf(b, side).orders|
    ensures HalfOf(b, side).orders[i].marketOrderId == HalfOf(b, side).orders[j].marketOrderId ==> i == j
  {
    hide HalfBooks.WellFormed, IndexSound, Apart;
  }

  /** Dead means gone: when the client's record says DEAD, or has never been used, nothing of
      that side rests, is on its way to the exchange, or is still to be reported. */
  lemma DeadIsGone(u: Setup, actions: seq<Action>, side: Direction)
    requires u.Valid() && Possible(u, actions)
    requires OrderOn(Run(u, actions).sides, side).state in {OMOrderState.INVALID, DEAD}
    ensures var s := Run(u, actions);
            && NoNew(s.bag, side) && (forall i: nat :: !RestsAt(u, s.book, side, i))
            && (forall i :: 0 <= i < |s.queue| && s.queue[i].kind != CANCEL_REJECTED ==> s.queue[i].side != side)
  {
    var ledger := Reachable(u, actions);
    var s := Run(u, actions);
    hide Run, Possible;
    SideIsQuiet(s.sides, s.nextId, s.queue, side);
    assert Placed(Settle(OrderOn(s.sides, side), s.queue), side, s.bag, ledger, u.clientId);
    hide Core;
    forall i: nat
      ensures !RestsAt(u, s.book, side, i)
    {
      if RestsAt(u, s.book, side, i) {
        RestingIsCurrent(u, s, ledger, side, i);
        assert false;
      }
    }
  }

  /** A rejected cancel never changes the client's record: the order it is about is dead
      already or replaced. So treating a rejected cancel as the death of the order is
      justified, and no late reply to an old order changes the current one. */
  lemma RejectionIsLate(u: Setup, actions: seq<Action>)
    requires u.Valid() && Possible(u, actions) && Run(u, actions).queue != []
    ensures var s := Run(u, actions);
            var r := s.queue[0];
            && (r.kind == CANCEL_REJECTED ==> OnResponse(s.sides, r) == s.sides)
            && (r.kind != CANCEL_REJECTED ==>
                  r.side != NoSide && Concerns(r, OrderOn(s.sides, r.side))
                  && OnResponse(s.sides, r) == WithOrder(s.sides, r.side, Informed(OrderOn(s.sides, r.side), r)))
  {
    var ledger := Reachable(u, actions);
    var s := Run(u, actions);
    hide Run, Possible, Settle, InSync, BookOk;
    TidyTail(s.sides.buy, s.queue);
    TidyTail(s.sides.sell, s.queue);
    assert Owned(s.sides, s.nextId, s.queue[0]);
    OnResponseBoth(s.sides, s.queue[0], s.nextId);
  }
}
