/** The client's record of an order is exactly what it was told about it and what it asked for. */
module OrderHistories {
  import opened Types
  import opened PriceBands
  import opened ClientOrders
  import opened Books
  import opened BookLedgers
  import opened OrderProtocols
  import BookLaws
  import Exchange = ExchangeRuns

  // ----- what the client knows -----

  /** The responses delivered so far, oldest first. */
  ghost function Told(u: Setup, actions: seq<Action>): seq<Response>
    requires Possible(u, actions)
    decreases |actions|
  {
    if actions == [] then []
    else
      var before, a := actions[..|actions| - 1], actions[|actions| - 1];
      Told(u, before) + if a.Deliver? then [Run(u, before).queue[0]] else []
  }

  /** The request that an action of the client sends. */
  ghost function Sends(u: Setup, s: System, a: Action): seq<Request> {
    if !a.Quote? then []
    else
      var moved := Quoted(u, s, a.side, a.price, a.quantity, a.totalPnl);
      if moved.request.Some? then [moved.request.value] else []
  }

  /** The requests sent so far, oldest first. */
  ghost function Sent(u: Setup, actions: seq<Action>): seq<Request>
    requires Possible(u, actions)
    decreases |actions|
  {
    if actions == [] then []
    else
      var before, a := actions[..|actions| - 1], actions[|actions| - 1];
      Sent(u, before) + Sends(u, Run(u, before), a)
  }

  /** A response of this kind about the order has been delivered. */
  ghost predicate Heard(told: seq<Response>, id: nat, kind: ResponseType) {
    exists i :: 0 <= i < |told| && told[i].clientOrderId == id && told[i].kind == kind
  }

  /** The execution that leaves nothing of the order has been delivered. */
  ghost predicate HeardLast(told: seq<Response>, id: nat) {
    exists i :: 0 <= i < |told| && told[i].clientOrderId == id && told[i].kind == FILLED && told[i].remaining == 0
  }

  /** Quantity of the executions delivered about the order. */
  function ExecutedTold(told: seq<Response>, id: nat): nat
    decreases |told|
  {
    if told == [] then 0
    else
      var r := told[|told| - 1];
      ExecutedTold(told[..|told| - 1], id) + if r.clientOrderId == id && r.kind == FILLED then r.executed else 0
  }

  /** The order is over as far as the client was told: cancelled, or executed in full. */
  ghost predicate Over(told: seq<Response>, id: nat) {
    Heard(told, id, CANCELED) || HeardLast(told, id)
  }

  /** The state and the quantity of an order follow from what was told and asked: it waits for the
      exchange until it is accepted, lives until the client asks for its cancel, then waits for the
      answer, and is dead when it is over. A cancel is asked for only after the acceptance. */
  ghost predicate IsHistory(c: nat, o: OMOrder, told: seq<Response>, sent: seq<Request>) {
    var id := o.orderId;
    var accepted, over, asked := Heard(told, id, ACCEPTED), Over(told, id), Cancel(c, id) in sent;
    && (o.state == PENDING_NEW <==> !over && !accepted)
    && (o.state == LIVE <==> !over && accepted && !asked)
    && (o.state == PENDING_CANCEL <==> !over && accepted && asked)
    && (o.state == DEAD <==> over)
    && (asked ==> accepted) && (Heard(told, id, CANCELED) ==> asked)
    && (HeardLast(told, id) <==> o.quantity == 0)
    && New(c, id, o.side, o.price, o.quantity + ExecutedTold(told, id)) in sent
  }

  ghost predicate AllBelow(n: nat, told: seq<Response>, sent: seq<Request>) {
    && (forall i :: 0 <= i < |told| ==> told[i].clientOrderId < n)
    && (forall r :: r in sent ==> r.clientOrderId < n)
  }

  ghost predicate KnownAs(c: nat, o: OMOrder, told: seq<Response>, sent: seq<Request>) {
    o.state != OMOrderState.INVALID ==> IsHistory(c, o, told, sent)
  }

  ghost predicate Known(u: Setup, s: System, told: seq<Response>, sent: seq<Request>) {
    && AllBelow(s.nextId, told, sent)
    && KnownAs(u.clientId, s.sides.buy, told, sent) && KnownAs(u.clientId, s.sides.sell, told, sent)
  }

  // ----- one more response, one more request -----

  lemma ToldMore(told: seq<Response>, r: Response, id: nat)
    ensures forall kind :: Heard(told + [r], id, kind) <==>
              Heard(told, id, kind) || (r.clientOrderId == id && r.kind == kind)
    ensures HeardLast(told + [r], id) <==>
              HeardLast(told, id) || (r.clientOrderId == id && r.kind == FILLED && r.remaining == 0)
    ensures ExecutedTold(told + [r], id)
         == ExecutedTold(told, id) + if r.clientOrderId == id && r.kind == FILLED then r.executed else 0
  {
    var told' := told + [r];
    assert told'[..|told|] == told;
    forall kind | Heard(told, id, kind)
      ensures Heard(told', id, kind)
    {
      var i :| 0 <= i < |told| && told[i].clientOrderId == id && told[i].kind == kind;
      assert told'[i] == told[i];
    }
    if HeardLast(told, id) {
      var i :| 0 <= i < |told| && told[i].clientOrderId == id && told[i].kind == FILLED && told[i].remaining == 0;
      assert told'[i] == told[i];
    }
    assert told'[|told|] == r;
  }

  /** A response about another order does not matter. */
  lemma OthersDoNotMatter(c: nat, o: OMOrder, told: seq<Response>, sent: seq<Request>, r: Response)
    requires KnownAs(c, o, told, sent) && !Concerns(r, o)
    ensures KnownAs(c, o, told + [r], sent)
  {
    ToldMore(told, r, o.orderId);
    hide Heard, HeardLast, ExecutedTold;
  }

  /** An expected response moves the order on. */
  lemma ExpectedMoves(c: nat, o: OMOrder, told: seq<Response>, sent: seq<Request>, r: Response)
    requires KnownAs(c, o, told, sent) && Concerns(r, o) && Expected(o, r)
    ensures KnownAs(c, Informed(o, r), told + [r], sent)
  {
    ToldMore(told, r, o.orderId);
    hide Heard, HeardLast, ExecutedTold;
  }

  lemma RequestOfAnother(c: nat, o: OMOrder, told: seq<Response>, sent: seq<Request>, k: Request)
    requires KnownAs(c, o, told, sent) && k.clientOrderId != o.orderId
    ensures KnownAs(c, o, told, sent + [k])
  {
    hide Heard, HeardLast, ExecutedTold;
  }

  lemma CancelAsked(c: nat, o: OMOrder, told: seq<Response>, sent: seq<Request>)
    requires KnownAs(c, o, told, sent) && o.state == LIVE
    ensures KnownAs(c, o.(state := PENDING_CANCEL), told, sent + [Cancel(c, o.orderId)])
  {
    hide Heard, HeardLast, ExecutedTold;
  }

  lemma {:induction false} NothingExecuted(told: seq<Response>, id: nat)
    requires forall i :: 0 <= i < |told| ==> told[i].clientOrderId != id
    ensures ExecutedTold(told, id) == 0
    decreases |told|
  {
    if told == [] {
    } else {
      NothingExecuted(told[..|told| - 1], id);
    }
  }

  /** Nothing is known yet about an order that has just been sent. */
  lemma NewAsked(c: nat, o: OMOrder, told: seq<Response>, sent: seq<Request>)
    requires AllBelow(o.orderId, told, sent) && o.state == PENDING_NEW && o.quantity > 0
    ensures KnownAs(c, o, told, sent + [New(c, o.orderId, o.side, o.price, o.quantity)])
  {
    NothingExecuted(told, o.orderId);
    hide ExecutedTold;
  }

  // ----- every step -----

  lemma DeliveryKnown(u: Setup, s: System, ledger: Ledger, told: seq<Response>, sent: seq<Request>)
    requires Inv(u, s, ledger) && Known(u, s, told, sent) && s.queue != []
    ensures Known(u, Do(u, s, Deliver), told + [s.queue[0]], sent)
  {
    hide InSync, BookOk, WithinLimit, Net, KnownAs, Expected, Tidy;
    var r, c := s.queue[0], u.clientId;
    assert Owned(s.sides, s.nextId, r);
    OnResponseBoth(s.sides, r, s.nextId);
    TidyTail(s.sides.buy, s.queue);
    TidyTail(s.sides.sell, s.queue);
    if Concerns(r, s.sides.buy) {
      ExpectedMoves(c, s.sides.buy, told, sent, r);
    } else {
      OthersDoNotMatter(c, s.sides.buy, told, sent, r);
    }
    if Concerns(r, s.sides.sell) {
      ExpectedMoves(c, s.sides.sell, told, sent, r);
    } else {
      OthersDoNotMatter(c, s.sides.sell, told, sent, r);
    }
  }

  /** The order on the other side has another id. */
  lemma OtherSideKnown(u: Setup, s: System, told: seq<Response>, sent: seq<Request>, side: Direction, k: Request)
    requires SidesOk(s.sides, s.nextId) && Known(u, s, told, sent)
    requires k.clientOrderId == s.nextId
          || (OrderOn(s.sides, side).state != OMOrderState.INVALID && k.clientOrderId == OrderOn(s.sides, side).orderId)
    ensures KnownAs(u.clientId, OrderOn(s.sides, Opposite(side)), told, sent + [k])
  {
    hide IsHistory;
    var o := OrderOn(s.sides, Opposite(side));
    if o.state != OMOrderState.INVALID {
      RequestOfAnother(u.clientId, o, told, sent, k);
    }
  }

  lemma QuoteKnown(u: Setup, s: System, ledger: Ledger, told: seq<Response>, sent: seq<Request>, a: Action)
    requires a.Quote? && Inv(u, s, ledger) && u.Valid() && Enabled(u, s, a) && Known(u, s, told, sent)
    ensures Known(u, Do(u, s, a), told, sent + Sends(u, s, a))
  {
    QuoteCases(u, s, a.side, a.price, a.quantity, a.totalPnl);
    assert SidesOk(s.sides, s.nextId);
    hide Core, BookOk, WithinLimit, Net;
    var moved := Quoted(u, s, a.side, a.price, a.quantity, a.totalPnl);
    if SendsNew(moved) {
      SentQuote(u, s, a.side, a.price, a.quantity, a.totalPnl);
      hide Inv, KnownAs, Quoted, CheckPreTradeRisk, PassesBand, Acceptable, AllBelow;
      NewKnown(u, s, told, sent, a.side, moved.order);
    } else if moved.request.Some? {
      hide Inv, KnownAs, Quoted, CheckPreTradeRisk, PassesBand, SidesOk, AllBelow;
      CancelKnown(u, s, told, sent, a.side);
    } else {
      hide Inv, KnownAs, CheckPreTradeRisk, PassesBand, SidesOk, AllBelow;
      assert sent + [] == sent;
    }
  }

  lemma NewKnown(u: Setup, s: System, told: seq<Response>, sent: seq<Request>, side: Direction, o: OMOrder)
    requires SidesOk(s.sides, s.nextId) && Known(u, s, told, sent)
    requires o == OMOrder(s.nextId, side, o.price, o.quantity, PENDING_NEW) && o.quantity > 0
    ensures var sent' := sent + [New(u.clientId, s.nextId, side, o.price, o.quantity)];
            && AllBelow(s.nextId + 1, told, sent')
            && KnownAs(u.clientId, o, told, sent') && KnownAs(u.clientId, OrderOn(s.sides, Opposite(side)), told, sent')
  {
    var k := New(u.clientId, s.nextId, side, o.price, o.quantity);
    OtherSideKnown(u, s, told, sent, side, k);
    NewAsked(u.clientId, o, told, sent);
    hide KnownAs;
    assert forall i :: 0 <= i < |told| ==> told[i].clientOrderId < s.nextId;
    assert forall r :: r in sent + [k] ==> r in sent || r == k;
  }

  lemma CancelKnown(u: Setup, s: System, told: seq<Response>, sent: seq<Request>, side: Direction)
    requires SidesOk(s.sides, s.nextId) && Known(u, s, told, sent) && OrderOn(s.sides, side).state == LIVE
    ensures var o := OrderOn(s.sides, side);
            var sent' := sent + [Cancel(u.clientId, o.orderId)];
            && AllBelow(s.nextId, told, sent')
            && KnownAs(u.clientId, o.(state := PENDING_CANCEL), told, sent')
            && KnownAs(u.clientId, OrderOn(s.sides, Opposite(side)), told, sent')
  {
    var o := OrderOn(s.sides, side);
    var k := Cancel(u.clientId, o.orderId);
    OtherSideKnown(u, s, told, sent, side, k);
    CancelAsked(u.clientId, o, told, sent);
    hide KnownAs;
    assert forall r :: r in sent + [k] ==> r in sent || r == k;
  }

  lemma StepKnown(u: Setup, s: System, ledger: Ledger, told: seq<Response>, sent: seq<Request>, a: Action)
    requires Inv(u, s, ledger) && u.Valid() && Enabled(u, s, a) && Known(u, s, told, sent)
    ensures Known(u, Do(u, s, a), told + (if a.Deliver? then [s.queue[0]] else []), sent + Sends(u, s, a))
  {
    assert told + [] == told && sent + [] == sent;
    match a {
      case Quote(_, _, _, _) =>
        QuoteKnown(u, s, ledger, told, sent, a);
      case Deliver =>
        DeliveryKnown(u, s, ledger, told, sent);
      case SkipId =>
        hide Inv, KnownAs;
      case Take(r) =>
        hide Inv, KnownAs, BookStep, Mine, Net;
      case Other(r) =>
        hide Inv, KnownAs, BookStep, Mine, Net;
    }
  }

  lemma {:induction false} AlwaysKnown(u: Setup, actions: seq<Action>)
    requires u.Valid() && Possible(u, actions)
    ensures Known(u, Run(u, actions), Told(u, actions), Sent(u, actions))
    decreases |actions|
  {
    hide Inv, Enabled, Do, Known, Sends;
    if actions == [] {
      NothingKnown(u);
    } else {
      var before, a := actions[..|actions| - 1], actions[|actions| - 1];
      AlwaysKnown(u, before);
      var ledger := Reachable(u, before);
      StepKnown(u, Run(u, before), ledger, Told(u, before), Sent(u, before), a);
    }
  }

  lemma NothingKnown(u: Setup)
    ensures Known(u, START, [], [])
  {
  }

  /** Over every interleaving: what the client records of an order is what it was told and asked for. So
      an order is live exactly from its acceptance until the client asks for its cancel or it is over. */
  lemma StateIsHistory(u: Setup, actions: seq<Action>, side: Direction)
    requires u.Valid() && Possible(u, actions)
    requires OrderOn(Run(u, actions).sides, side).state != OMOrderState.INVALID
    ensures IsHistory(u.clientId, OrderOn(Run(u, actions).sides, side), Told(u, actions), Sent(u, actions))
  {
    hide Run, Possible, IsHistory;
    AlwaysKnown(u, actions);
  }

  // ----- a cancel is answered -----

  /** What ends the wait for a cancel: its answer, or the execution of the rest. */
  ghost predicate Answered(queue: seq<Response>, id: nat) {
    exists i :: 0 <= i < |queue| && queue[i].clientOrderId == id
                && (queue[i].kind in {CANCELED, CANCEL_REJECTED}
                    || (queue[i].kind == FILLED && queue[i].remaining == 0))
  }

  ghost predicate Awaited(u: Setup, o: OMOrder, bag: multiset<Request>, queue: seq<Response>) {
    o.state == PENDING_CANCEL ==> Cancel(u.clientId, o.orderId) in bag || Answered(queue, o.orderId)
  }

  ghost predicate BothAwaited(u: Setup, s: System) {
    Awaited(u, s.sides.buy, s.bag, s.queue) && Awaited(u, s.sides.sell, s.bag, s.queue)
  }

  lemma AnsweredLater(queue: seq<Response>, more: seq<Response>, id: nat)
    requires Answered(queue, id) || Answered(more, id)
    ensures Answered(queue + more, id)
  {
    if i :| 0 <= i < |queue| && queue[i].clientOrderId == id
            && (queue[i].kind in {CANCELED, CANCEL_REJECTED} || (queue[i].kind == FILLED && queue[i].remaining == 0)) {
      assert (queue + more)[i] == queue[i];
    } else {
      var i :| 0 <= i < |more| && more[i].clientOrderId == id
            && (more[i].kind in {CANCELED, CANCEL_REJECTED} || (more[i].kind == FILLED && more[i].remaining == 0));
      assert (queue + more)[|queue| + i] == more[i];
    }
  }

  /** Delivering the answer ends the wait; any other response leaves it in the queue. */
  lemma DeliveryAwaited(u: Setup, o: OMOrder, bag: multiset<Request>, queue: seq<Response>)
    requires Awaited(u, o, bag, queue) && queue != []
    requires Concerns(queue[0], o) ==> Expected(o, queue[0])
    ensures Awaited(u, if Concerns(queue[0], o) then Informed(o, queue[0]) else o, bag, queue[1..])
  {
    if o.state == PENDING_CANCEL && Answered(queue, o.orderId) {
      var i :| 0 <= i < |queue| && queue[i].clientOrderId == o.orderId
            && (queue[i].kind in {CANCELED, CANCEL_REJECTED} || (queue[i].kind == FILLED && queue[i].remaining == 0));
      assert i > 0 ==> queue[1..][i - 1] == queue[i];
    }
  }

  /** The exchange answers the cancel it takes; the other requests stay on their way. */
  lemma ServedAwaited(u: Setup, o: OMOrder, bag: multiset<Request>, queue: seq<Response>, r: Request,
                      mine: seq<Response>)
    requires Awaited(u, o, bag, queue)
    requires r == Cancel(u.clientId, o.orderId) ==> Answered(mine, o.orderId)
    ensures Awaited(u, o, bag - multiset{r}, queue + mine)
  {
    hide Answered;
    if o.state == PENDING_CANCEL && (Answered(queue, o.orderId) || Answered(mine, o.orderId)) {
      AnsweredLater(queue, mine, o.orderId);
    }
  }

  lemma CancelAnswers(u: Setup, s: System, ledger: Ledger, r: Request)
    requires Inv(u, s, ledger) && r.Cancel? && r.clientId == u.clientId && Acceptable(Exchange.ConfigOf(u.symbol), r)
    ensures Answered(Mine(u.clientId, BookStep(u, s.book, r).responses), r.clientOrderId)
  {
    BookHonours(u, s, ledger, r);
    hide Inv, BookStep, BookLaws.CountersKept, PriceBand.ToPrice;
    var rs := BookStep(u, s.book, r).responses;
    assert |rs| == 1 && rs[0].clientId == u.clientId && rs[0].clientOrderId == r.clientOrderId
           && rs[0].kind in {CANCELED, CANCEL_REJECTED};
    OneResponse(u.clientId, rs);
  }

  lemma StepAwaited(u: Setup, s: System, ledger: Ledger, a: Action)
    requires Inv(u, s, ledger) && u.Valid() && Enabled(u, s, a) && BothAwaited(u, s)
    ensures BothAwaited(u, Do(u, s, a))
  {
    match a {
      case Quote(side, price, quantity, totalPnl) =>
        QuoteAwaited(u, s, side, price, quantity, totalPnl);
        hide Inv, Quoted, Awaited;
      case SkipId =>
        hide Inv, Awaited;
      case Deliver =>
        DeliverAwaited(u, s, ledger);
      case Take(r) =>
        TakenIsMine(u, s, ledger, r);
        TakeAwaited(u, s, ledger, r);
      case Other(r) =>
        hide Inv, BookStep, Net, Awaited;
        var mine := Mine(u.clientId, BookStep(u, s.book, r).responses);
        MoreAwaited(u, s.sides.buy, s.bag, s.queue, mine);
        MoreAwaited(u, s.sides.sell, s.bag, s.queue, mine);
    }
  }

  /** A quote puts the cancel it asks for on its way and takes nothing off it. */
  lemma QuoteAwaited(u: Setup, s: System, side: Direction, price: Option<int>, quantity: nat, totalPnl: real)
    requires BothAwaited(u, s)
    ensures var moved := Quoted(u, s, side, price, quantity, totalPnl);
            var bag := if moved.request.Some? then s.bag + multiset{moved.request.value} else s.bag;
            BothAwaited(u, s.(sides := WithOrder(s.sides, side, moved.order), bag := bag))
  {
    QuoteCases(u, s, side, price, quantity, totalPnl);
    hide Quoted, Answered;
  }

  lemma MoreAwaited(u: Setup, o: OMOrder, bag: multiset<Request>, queue: seq<Response>, mine: seq<Response>)
    requires Awaited(u, o, bag, queue)
    ensures Awaited(u, o, bag, queue + mine)
  {
    hide Answered;
    if Answered(queue, o.orderId) {
      AnsweredLater(queue, mine, o.orderId);
    }
  }

  lemma DeliverAwaited(u: Setup, s: System, ledger: Ledger)
    requires Inv(u, s, ledger) && BothAwaited(u, s) && s.queue != []
    ensures BothAwaited(u, Do(u, s, Deliver))
  {
    hide InSync, BookOk, WithinLimit, Net, Awaited, Expected, Tidy;
    OnResponseBoth(s.sides, s.queue[0], s.nextId);
    TidyTail(s.sides.buy, s.queue);
    TidyTail(s.sides.sell, s.queue);
    DeliveryAwaited(u, s.sides.buy, s.bag, s.queue);
    DeliveryAwaited(u, s.sides.sell, s.bag, s.queue);
  }

  lemma TakeAwaited(u: Setup, s: System, ledger: Ledger, r: Request)
    requires Inv(u, s, ledger) && BothAwaited(u, s) && r in s.bag
    requires r.clientId == u.clientId && Acceptable(Exchange.ConfigOf(u.symbol), r)
    ensures BothAwaited(u, Served(u, s.(bag := s.bag - multiset{r}), r))
  {
    if r.Cancel? {
      CancelAnswers(u, s, ledger, r);
    }
    hide Inv, BookStep, Net, Awaited, Answered, Mine;
    var mine := Mine(u.clientId, BookStep(u, s.book, r).responses);
    ServedAwaited(u, s.sides.buy, s.bag, s.queue, r, mine);
    ServedAwaited(u, s.sides.sell, s.bag, s.queue, r, mine);
  }

  lemma {:induction false} AlwaysAwaited(u: Setup, actions: seq<Action>)
    requires u.Valid() && Possible(u, actions)
    ensures BothAwaited(u, Run(u, actions))
    decreases |actions|
  {
    hide Inv, Enabled, Do, BothAwaited;
    if actions == [] {
      NothingAwaited(u);
    } else {
      var before, a := actions[..|actions| - 1], actions[|actions| - 1];
      AlwaysAwaited(u, before);
      var ledger := Reachable(u, before);
      StepAwaited(u, Run(u, before), ledger, a);
    }
  }

  lemma NothingAwaited(u: Setup)
    ensures BothAwaited(u, START)
  {
  }

  /** No side waits for nothing: over every interleaving, an order that waits for its cancel has the
      cancel on its way to the exchange, or what ends the wait on its way back. */
  lemma CancelIsPending(u: Setup, actions: seq<Action>, side: Direction)
    requires u.Valid() && Possible(u, actions)
    requires OrderOn(Run(u, actions).sides, side).state == PENDING_CANCEL
    ensures var s := Run(u, actions);
            var id := OrderOn(s.sides, side).orderId;
            Cancel(u.clientId, id) in s.bag || Answered(s.queue, id)
  {
    hide Run, Possible, Answered;
    AlwaysAwaited(u, actions);
  }
}
