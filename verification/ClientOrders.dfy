/** The client's record of its orders as a value: one order per side of a symbol. */
module ClientOrders {
  import opened Types
  import opened PriceBands
  import Books

  datatype OMOrderState = INVALID | PENDING_NEW | LIVE | PENDING_CANCEL | DEAD

  datatype OMOrder = OMOrder(orderId: nat, side: Direction, price: int, quantity: nat, state: OMOrderState)

  datatype Sides = Sides(buy: OMOrder, sell: OMOrder)

  const NO_ORDER := OMOrder(0, BUY, 0, 0, OMOrderState.INVALID)
  const NO_ORDERS := Sides(NO_ORDER, NO_ORDER)

  function OrderOn(s: Sides, side: Direction): OMOrder {
    if side == BUY then s.buy else s.sell
  }

  function WithOrder(s: Sides, side: Direction, o: OMOrder): Sides {
    if side == BUY then s.(buy := o) else s.(sell := o)
  }

  // ----- responses -----

  /** The response is about this order. */
  predicate Concerns(r: Response, o: OMOrder) {
    o.state != OMOrderState.INVALID && o.orderId == r.clientOrderId
  }

  function Informed(o: OMOrder, r: Response): OMOrder {
    match r.kind
    case ACCEPTED => o.(state := LIVE)
    case CANCELED => o.(state := DEAD)
    case FILLED => o.(quantity := r.remaining, state := if r.remaining == 0 then DEAD else o.state)
    case CANCEL_REJECTED => o.(state := DEAD)
  }

  /** The first order the response is about changes; a response about no current order, such
      as a late reply to an old one, changes nothing. */
  function OnResponse(s: Sides, r: Response): Sides {
    if Concerns(r, s.buy) then s.(buy := Informed(s.buy, r))
    else if Concerns(r, s.sell) then s.(sell := Informed(s.sell, r))
    else s
  }

  /** What a response does to the order it is about. */
  ghost predicate UpdatedBy(o: OMOrder, r: Response, o': OMOrder) {
    && o' == o.(state := o'.state, quantity := o'.quantity)
    && (r.kind == ACCEPTED ==> o'.state == LIVE)
    && (r.kind in {CANCELED, CANCEL_REJECTED} ==> o'.state == DEAD)
    && (if r.kind == FILLED then o'.quantity == r.remaining && o'.state == (if r.remaining == 0 then DEAD else o.state)
        else o'.quantity == o.quantity)
  }

  /** At most one order changes: the first the response is about. */
  ghost predicate UpdateLaw(s: Sides, r: Response, s': Sides) {
    if Concerns(r, s.buy) then s'.sell == s.sell && UpdatedBy(s.buy, r, s'.buy)
    else s'.buy == s.buy && if Concerns(r, s.sell) then UpdatedBy(s.sell, r, s'.sell) else s'.sell == s.sell
  }

  // ----- quotes -----

  /** The test on a quoted price. The conversion to a tick keeps only 32 bits. */
  predicate PassesBand(band: PriceBand, price: int)
    requires band.IsValid()
  {
    !(price < band.basePrice || (price - band.basePrice) % band.tickSize != 0 || band.ToTick(price) >= TICK_COUNT)
  }

  datatype RiskCheckResult = ORDER_TOO_LARGE | POSITION_TOO_LARGE | LOSS_TOO_LARGE | ALLOWED

  datatype RiskCfg = RiskCfg(maxOrderSize: nat, maxPosition: nat, maxLoss: real)

  /** Allowed is what keeps the position within the limit on both sides when it is filled. */
  function CheckPreTradeRisk(cfg: RiskCfg, position: int, totalPnl: real, side: Direction, quantity: nat)
    : (result: RiskCheckResult)
    ensures result == ALLOWED <==>
              && 0 < quantity <= cfg.maxOrderSize && totalPnl >= cfg.maxLoss
              && var after := if side == BUY then position + quantity else position - quantity;
                 after <= cfg.maxPosition && after + cfg.maxPosition >= 0
    ensures result == ORDER_TOO_LARGE <==> !(0 < quantity <= cfg.maxOrderSize)
    ensures result == POSITION_TOO_LARGE <==>
              && 0 < quantity <= cfg.maxOrderSize
              && var after := if side == BUY then position + quantity else position - quantity;
                 after > cfg.maxPosition || after + cfg.maxPosition < 0
  {
    var after := position + (if side == BUY then 1 else -1) * quantity;
    if quantity == 0 || quantity > cfg.maxOrderSize then ORDER_TOO_LARGE
    else if (if after < 0 then -after else after) > cfg.maxPosition then POSITION_TOO_LARGE
    else if totalPnl < cfg.maxLoss then LOSS_TOO_LARGE
    else ALLOWED
  }

  /** An order after a quote, and the request the quote caused. */
  datatype Moved = Moved(order: OMOrder, request: Option<Books.Request>)

  predicate SendsNew(moved: Moved) {
    moved.request.Some? && moved.request.value.New?
  }

  /** Quote `price` and `quantity`, or nothing, on the side of `o`: a live order with other
      terms is cancelled, and a new order is only sent when there is none. */
  function Move(band: PriceBand, clientId: nat, nextId: nat, o: OMOrder, price: Option<int>, side: Direction,
                quantity: nat, risk: RiskCheckResult): Moved
    requires band.IsValid()
  {
    var p := if price.Some? && PassesBand(band, price.value) then price else None;
    match o.state
    case LIVE =>
      if p == None || o.price != p.value || o.quantity != quantity
      then Moved(o.(state := PENDING_CANCEL), Some(Books.Cancel(clientId, o.orderId)))
      else Moved(o, None)
    case INVALID | DEAD =>
      if p.Some? && risk == ALLOWED
      then Moved(OMOrder(nextId, side, p.value, quantity, PENDING_NEW),
                 Some(Books.New(clientId, nextId, side, p.value, quantity)))
      else Moved(o, None)
    case PENDING_NEW | PENDING_CANCEL => Moved(o, None)
  }

  /** What a quote may do. A live order stays if and only if its terms are those quoted, and is cancelled
      otherwise; a new order, with exactly the terms quoted, is sent if and only if there is none, the
      price passes and the risk check allows it; an order the exchange has still to answer is left. */
  ghost predicate QuoteLaw(clientId: nat, nextId: nat, o: OMOrder, price: Option<int>, side: Direction, quantity: nat,
                           risk: RiskCheckResult, moved: Moved)
  {
    var good := price.Some? && PassesBand(DEFAULT_PRICE_BAND, price.value);
    var asQuoted := good && o.price == price.value && o.quantity == quantity;
    var cancels := o.state == LIVE && !asQuoted;
    var sends := o.state in {OMOrderState.INVALID, DEAD} && good && risk == ALLOWED;
    && (moved.order.state == LIVE ==> good && moved.order.price == price.value && moved.order.quantity == quantity)
    && (moved.request.Some? && moved.request.value.Cancel? <==> cancels)
    && (cancels ==> moved == Moved(o.(state := PENDING_CANCEL), Some(Books.Cancel(clientId, o.orderId))))
    && (moved.request.Some? && moved.request.value.New? <==> sends)
    && (sends ==> moved == Moved(OMOrder(nextId, side, price.value, quantity, PENDING_NEW),
                                 Some(Books.New(clientId, nextId, side, price.value, quantity))))
    && (moved.request == None ==> moved.order == o)
    && (o.state in {PENDING_NEW, PENDING_CANCEL} ==> moved == Moved(o, None))
  }

  lemma MoveIsLawful(clientId: nat, nextId: nat, o: OMOrder, price: Option<int>, side: Direction, quantity: nat,
                     risk: RiskCheckResult)
    ensures QuoteLaw(clientId, nextId, o, price, side, quantity, risk,
                     Move(DEFAULT_PRICE_BAND, clientId, nextId, o, price, side, quantity, risk))
  {
    hide PassesBand;
  }

  /** The test on quoted prices lets through more than the band: exactly those prices on the
      grid above it whose tick no longer fits 32 bits and, cut to them, falls below the end
      of the grid. */
  lemma BandTestIsExact(band: PriceBand, price: int)
    requires band.IsValid()
    ensures PassesBand(band, price) <==>
              || band.InBand(price)
              || (&& price >= band.basePrice && (price - band.basePrice) % band.tickSize == 0
                  && (price - band.basePrice) / band.tickSize >= 0x8000_0000
                  && NarrowToTick((price - band.basePrice) / band.tickSize) < TICK_COUNT)
  {
    if price >= band.basePrice {
      var q := (price - band.basePrice) / band.tickSize;
      assert q >= 0;
      assert band.ToTick(price) == NarrowToTick(q);
    }
  }

  /** A price far above the band that the test lets through. */
  lemma BandTestLeaks()
    ensures DEFAULT_PRICE_BAND.IsValid()
    ensures PassesBand(DEFAULT_PRICE_BAND, 0x8000_0000) && !DEFAULT_PRICE_BAND.InBand(0x8000_0000)
  {
  }

  /** Below 2^31 the test on the default band is the band. */
  lemma BandTestBelow(price: int)
    requires price < 0x8000_0000
    ensures DEFAULT_PRICE_BAND.IsValid()
            && (PassesBand(DEFAULT_PRICE_BAND, price) <==> DEFAULT_PRICE_BAND.InBand(price))
  {
  }

  // ----- what the queued responses will do -----

  /** An order after all `queue` has been delivered. */
  function Settle(o: OMOrder, queue: seq<Response>): OMOrder
    decreases |queue|
  {
    if queue == [] then o
    else Settle(if Concerns(queue[0], o) then Informed(o, queue[0]) else o, queue[1..])
  }

  /** A response that an order in this state can get. A rejected cancel only ever reaches an
      order that is already dead. */
  predicate Expected(o: OMOrder, r: Response) {
    match r.kind
    case ACCEPTED => o.state == PENDING_NEW && r.side == o.side && r.remaining == o.quantity > 0
    case FILLED =>
      && o.state in {LIVE, PENDING_CANCEL} && r.side == o.side && r.executed > 0
      && r.executed + r.remaining == o.quantity
    case CANCELED => o.state == PENDING_CANCEL && r.side == o.side
    case CANCEL_REJECTED => o.state == DEAD
  }

  /** Every response queued about the order is expected when it will be delivered. */
  predicate Tidy(o: OMOrder, queue: seq<Response>)
    decreases |queue|
  {
    queue == [] ||
    if Concerns(queue[0], o) then Expected(o, queue[0]) && Tidy(Informed(o, queue[0]), queue[1..])
    else Tidy(o, queue[1..])
  }

  lemma {:induction false} TidyAppend(o: OMOrder, queue: seq<Response>, r: Response)
    requires Tidy(o, queue) && (Concerns(r, Settle(o, queue)) ==> Expected(Settle(o, queue), r))
    ensures Tidy(o, queue + [r])
    ensures Settle(o, queue + [r])
         == if Concerns(r, Settle(o, queue)) then Informed(Settle(o, queue), r) else Settle(o, queue)
    decreases |queue|
  {
    if queue == [] {
      assert [r][1..] == [];
    } else {
      hide Expected;
      assert (queue + [r])[1..] == queue[1..] + [r];
      TidyAppend(if Concerns(queue[0], o) then Informed(o, queue[0]) else o, queue[1..], r);
    }
  }

  /** Settling keeps the identity of an order. */
  lemma {:induction false} SettleKeeps(o: OMOrder, queue: seq<Response>)
    ensures var z := Settle(o, queue);
            z.orderId == o.orderId && z.side == o.side && z.price == o.price
            && (z.state == OMOrderState.INVALID <==> o.state == OMOrderState.INVALID)
    decreases |queue|
  {
    if queue == [] {
    } else {
      SettleKeeps(if Concerns(queue[0], o) then Informed(o, queue[0]) else o, queue[1..]);
    }
  }

  /** Responses about other orders do not matter. */
  lemma {:induction false} SettleOthers(o: OMOrder, queue: seq<Response>)
    requires forall i :: 0 <= i < |queue| ==> !Concerns(queue[i], o)
    ensures Settle(o, queue) == o && Tidy(o, queue)
    decreases |queue|
  {
    if queue == [] {
    } else {
      assert !Concerns(queue[0], o);
      assert forall i :: 0 <= i < |queue[1..]| ==> queue[1..][i] == queue[i + 1];
      SettleOthers(o, queue[1..]);
    }
  }

  /** Asking for a cancel does not disturb what is queued: the order ends cancelled-to-be, or
      dead if fills that are on their way complete it. */
  lemma {:induction false} SettleAfterCancel(o: OMOrder, queue: seq<Response>)
    requires o.state in {LIVE, DEAD} && Tidy(o, queue)
    ensures var o' := if o.state == LIVE then o.(state := PENDING_CANCEL) else o;
            && Tidy(o', queue)
            && Settle(o, queue).state in {LIVE, DEAD}
            && Settle(o', queue) == if Settle(o, queue).state == LIVE then Settle(o, queue).(state := PENDING_CANCEL)
                                    else Settle(o, queue)
    decreases |queue|
  {
    if queue == [] {
    } else {
      SettleAfterCancel(if Concerns(queue[0], o) then Informed(o, queue[0]) else o, queue[1..]);
    }
  }

  /** A dead order stays dead, and only rejected cancels are still to come for it. */
  lemma {:induction false} DeadStaysDead(o: OMOrder, queue: seq<Response>)
    requires o.state == DEAD && Tidy(o, queue)
    ensures Settle(o, queue) == o
    ensures forall i :: 0 <= i < |queue| && Concerns(queue[i], o) ==> queue[i].kind == CANCEL_REJECTED
    ensures Underway(o, queue) == 0
    decreases |queue|
  {
    if queue == [] {
    } else {
      if Concerns(queue[0], o) {
        assert Informed(o, queue[0]) == o;
      }
      DeadStaysDead(o, queue[1..]);
      assert forall i :: 1 <= i < |queue| ==> queue[i] == queue[1..][i - 1];
    }
  }

  // ----- executions on their way -----

  /** Quantity of the executions queued about an order. */
  function Underway(o: OMOrder, queue: seq<Response>): nat
    decreases |queue|
  {
    if queue == [] then 0
    else (if Concerns(queue[0], o) && queue[0].kind == FILLED then queue[0].executed else 0) + Underway(o, queue[1..])
  }

  /** What an order may still buy or sell, as far as the client knows. */
  function Open(o: OMOrder): nat {
    if o.state in {OMOrderState.INVALID, DEAD} then 0 else o.quantity
  }

  /** The client's quantity covers what is on its way and what is left after that. */
  lemma {:induction false} OpenCovers(o: OMOrder, queue: seq<Response>)
    requires Tidy(o, queue)
    ensures Open(o) >= Underway(o, queue) + Open(Settle(o, queue))
    ensures o.state != OMOrderState.INVALID ==> o.quantity == Underway(o, queue) + Settle(o, queue).quantity
    decreases |queue|
  {
    if queue == [] {
    } else {
      var o' := if Concerns(queue[0], o) then Informed(o, queue[0]) else o;
      OpenCovers(o', queue[1..]);
      UnderwaySame(o, o', queue[1..]);
      if o'.state == DEAD {
        DeadStaysDead(o', queue[1..]);
      }
    }
  }

  /** An order that nothing queued answers is as it was sent. */
  lemma {:induction false} PendingIsUnanswered(o: OMOrder, queue: seq<Response>)
    requires Tidy(o, queue) && Settle(o, queue).state == PENDING_NEW
    ensures Settle(o, queue) == o && Underway(o, queue) == 0
    decreases |queue|
  {
    if queue == [] {
    } else {
      PendingIsUnanswered(if Concerns(queue[0], o) then Informed(o, queue[0]) else o, queue[1..]);
    }
  }

  /** An order that is working and will be dead is executed in full by what is queued, or a
      cancel of the rest of it is among that. */
  lemma {:induction false} DoneOrCanceled(o: OMOrder, queue: seq<Response>)
    requires Tidy(o, queue) && o.state !in {OMOrderState.INVALID, DEAD} && Settle(o, queue).state == DEAD
    ensures Settle(o, queue).quantity == 0
         || exists i :: 0 <= i < |queue| && Concerns(queue[i], o) && queue[i].kind == CANCELED
    decreases |queue|
  {
    if queue == [] {
    } else {
      var o' := if Concerns(queue[0], o) then Informed(o, queue[0]) else o;
      if o'.state == DEAD {
        DeadStaysDead(o', queue[1..]);
      } else {
        DoneOrCanceled(o', queue[1..]);
        if i :| 0 <= i < |queue[1..]| && Concerns(queue[1..][i], o') && queue[1..][i].kind == CANCELED {
          assert queue[i + 1] == queue[1..][i];
        }
      }
    }
  }

  lemma {:induction false} UnderwaySame(o: OMOrder, o': OMOrder, queue: seq<Response>)
    requires o'.orderId == o.orderId && (o'.state == OMOrderState.INVALID <==> o.state == OMOrderState.INVALID)
    ensures Underway(o', queue) == Underway(o, queue)
    decreases |queue|
  {
    if queue == [] {
    } else {
      UnderwaySame(o, o', queue[1..]);
    }
  }
}
