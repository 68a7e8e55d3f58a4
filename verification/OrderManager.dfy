/** The trading client's order manager, with the pre-trade risk check it asks. */
module OrderManagers {
  import opened Types
  import opened PriceBands
  import opened ClientOrders
  import opened PositionKeepers
  import Books

  /** What the risk check of one symbol looks at. */
  datatype RiskInfo = RiskInfo(positionInfo: PositionInfo, cfg: RiskCfg) {
    function CheckPreTradeRisk(side: Direction, quantity: nat): RiskCheckResult
      reads positionInfo
    {
      ClientOrders.CheckPreTradeRisk(cfg, positionInfo.position, positionInfo.totalPnl, side, quantity)
    }
  }

  datatype Sent = Sent(symbol: nat, request: Books.Request)

  class OrderManager {
    const clientId: nat
    const tickerRisk: seq<RiskInfo>
    const tickerSideOrder: array2<OMOrder>
    var nextOrderId: nat
    var sent: seq<Sent>

    ghost predicate Valid()
      reads this
    {
      |tickerRisk| == MAX_SYMBOLS && tickerSideOrder.Length0 == MAX_SYMBOLS && tickerSideOrder.Length1 == 2
    }

    function Index(side: Direction): (i: nat)
      ensures i < 2
    {
      if side == BUY then 0 else 1
    }

    ghost function OrdersOf(symbol: nat): Sides
      requires Valid() && symbol < MAX_SYMBOLS
      reads this, tickerSideOrder
    {
      Sides(tickerSideOrder[symbol, 0], tickerSideOrder[symbol, 1])
    }

    constructor (clientId: nat, tickerRisk: seq<RiskInfo>)
      requires |tickerRisk| == MAX_SYMBOLS
      ensures Valid() && fresh(tickerSideOrder) && this.tickerRisk == tickerRisk && nextOrderId == 1 && sent == []
      ensures forall s :: 0 <= s < MAX_SYMBOLS ==> OrdersOf(s) == NO_ORDERS
    {
      this.clientId := clientId;
      this.tickerRisk := tickerRisk;
      tickerSideOrder := new OMOrder[MAX_SYMBOLS, 2]((i, j) => NO_ORDER);
      nextOrderId := 1;
      sent := [];
    }

    /** Brings the order a response is about up to date. */
    method OnOrderUpdate(r: Response)
      requires Valid() && r.symbol < MAX_SYMBOLS
      modifies tickerSideOrder
      ensures Valid() && OrdersOf(r.symbol) == OnResponse(old(OrdersOf(r.symbol)), r)
      ensures UpdateLaw(old(OrdersOf(r.symbol)), r, OrdersOf(r.symbol))
      ensures forall s :: 0 <= s < MAX_SYMBOLS && s != r.symbol ==> OrdersOf(s) == old(OrdersOf(s))
    {
      var i := 0;
      while i < 2 && !Concerns(r, tickerSideOrder[r.symbol, i])
        invariant 0 <= i <= 2
        invariant forall j :: 0 <= j < i ==> !Concerns(r, tickerSideOrder[r.symbol, j])
      {
        i := i + 1;
      }
      if i == 2 {
        return;
      }
      var order := tickerSideOrder[r.symbol, i];
      match r.kind {
        case ACCEPTED =>
          order := order.(state := LIVE);
        case CANCELED =>
          order := order.(state := DEAD);
        case FILLED =>
          order := order.(quantity := r.remaining);
          if order.quantity == 0 {
            order := order.(state := DEAD);
          }
        case CANCEL_REJECTED =>
          order := order.(state := DEAD);
      }
      tickerSideOrder[r.symbol, i] := order;
    }

    /** Sends a new order and remembers it as pending. */
    method NewOrder(symbol: nat, side: Direction, price: int, quantity: nat)
      requires Valid() && symbol < MAX_SYMBOLS && nextOrderId < MAX_ORDER_IDS
      modifies this`nextOrderId, this`sent, tickerSideOrder
      ensures Valid() && nextOrderId == old(nextOrderId) + 1
      ensures sent == old(sent) + [Sent(symbol, Books.New(clientId, old(nextOrderId), side, price, quantity))]
      ensures OrdersOf(symbol)
           == WithOrder(old(OrdersOf(symbol)), side, OMOrder(old(nextOrderId), side, price, quantity, PENDING_NEW))
      ensures forall s :: 0 <= s < MAX_SYMBOLS && s != symbol ==> OrdersOf(s) == old(OrdersOf(s))
    {
      sent := sent + [Sent(symbol, Books.New(clientId, nextOrderId, side, price, quantity))];
      tickerSideOrder[symbol, Index(side)] := OMOrder(nextOrderId, side, price, quantity, PENDING_NEW);
      nextOrderId := nextOrderId + 1;
    }

    /** Asks for the cancel of the order on one side. */
    method CancelOrder(symbol: nat, side: Direction)
      requires Valid() && symbol < MAX_SYMBOLS
      modifies this`sent, tickerSideOrder
      ensures Valid()
      ensures sent == old(sent) + [Sent(symbol, Books.Cancel(clientId, OrderOn(old(OrdersOf(symbol)), side).orderId))]
      ensures OrdersOf(symbol)
           == WithOrder(old(OrdersOf(symbol)), side, OrderOn(old(OrdersOf(symbol)), side).(state := PENDING_CANCEL))
      ensures forall s :: 0 <= s < MAX_SYMBOLS && s != symbol ==> OrdersOf(s) == old(OrdersOf(s))
    {
      var order := tickerSideOrder[symbol, Index(side)];
      sent := sent + [Sent(symbol, Books.Cancel(clientId, order.orderId))];
      tickerSideOrder[symbol, Index(side)] := order.(state := PENDING_CANCEL);
    }

    /** What `Move` makes of the order on one side. */
    ghost function MovedOn(symbol: nat, price: Option<int>, side: Direction, quantity: nat): Moved
      requires Valid() && symbol < MAX_SYMBOLS
      reads this, tickerSideOrder, tickerRisk[symbol].positionInfo
    {
      Move(DEFAULT_PRICE_BAND, clientId, nextOrderId, OrderOn(OrdersOf(symbol), side), price, side, quantity,
           tickerRisk[symbol].CheckPreTradeRisk(side, quantity))
    }

    ghost function SentBy(symbol: nat, moved: Moved): seq<Sent> {
      if moved.request.Some? then [Sent(symbol, moved.request.value)] else []
    }

    /** Quotes a price and quantity on one side, or nothing. */
    method MoveOrder(symbol: nat, price: Option<int>, side: Direction, quantity: nat)
      requires Valid() && symbol < MAX_SYMBOLS
      requires SendsNew(MovedOn(symbol, price, side, quantity)) ==> nextOrderId < MAX_ORDER_IDS
      modifies this`nextOrderId, this`sent, tickerSideOrder
      ensures Valid()
      ensures var moved := old(MovedOn(symbol, price, side, quantity));
              && OrdersOf(symbol) == WithOrder(old(OrdersOf(symbol)), side, moved.order)
              && sent == old(sent) + SentBy(symbol, moved)
              && nextOrderId == old(nextOrderId) + (if SendsNew(moved) then 1 else 0)
              && QuoteLaw(clientId, old(nextOrderId), old(OrderOn(OrdersOf(symbol), side)), price, side, quantity,
                          old(tickerRisk[symbol].CheckPreTradeRisk(side, quantity)), moved)
      ensures forall s :: 0 <= s < MAX_SYMBOLS && s != symbol ==> OrdersOf(s) == old(OrdersOf(s))
    {
      MoveIsLawful(clientId, nextOrderId, OrderOn(OrdersOf(symbol), side), price, side, quantity,
                   tickerRisk[symbol].CheckPreTradeRisk(side, quantity));
      var band := DEFAULT_PRICE_BAND;
      var p := price;
      if p.Some? && (p.value < band.basePrice || (p.value - band.basePrice) % band.tickSize != 0
                     || band.ToTick(p.value) >= TICK_COUNT) {
        p := None;
      }
      var order := tickerSideOrder[symbol, Index(side)];
      match order.state {
        case LIVE =>
          if p == None || order.price != p.value || order.quantity != quantity {
            CancelOrder(symbol, side);
          }
        case INVALID | DEAD =>
          if p.Some? {
            var risk := tickerRisk[symbol].CheckPreTradeRisk(side, quantity);
            if risk == ALLOWED {
              NewOrder(symbol, side, p.value, quantity);
            }
          }
        case PENDING_NEW | PENDING_CANCEL =>
      }
    }

    /** The id for the sell side once the buy side has been quoted. */
    ghost function AskId(bid: Moved): nat
      reads this
    {
      nextOrderId + if SendsNew(bid) then 1 else 0
    }

    /** What `Move` makes of the sell side once the buy side has been quoted. */
    ghost function AskMoved(symbol: nat, bid: Moved, askPrice: Option<int>, clip: nat): Moved
      requires Valid() && symbol < MAX_SYMBOLS
      reads this, tickerSideOrder, tickerRisk[symbol].positionInfo
    {
      Move(DEFAULT_PRICE_BAND, clientId, AskId(bid), OrdersOf(symbol).sell, askPrice, SELL, clip,
           tickerRisk[symbol].CheckPreTradeRisk(SELL, clip))
    }

    /** Quotes both sides of a symbol. */
    method MoveOrders(symbol: nat, bidPrice: Option<int>, askPrice: Option<int>, clip: nat)
      requires Valid() && symbol < MAX_SYMBOLS
      requires var bid := MovedOn(symbol, bidPrice, BUY, clip);
               && (SendsNew(bid) ==> nextOrderId < MAX_ORDER_IDS)
               && (SendsNew(AskMoved(symbol, bid, askPrice, clip)) ==> AskId(bid) < MAX_ORDER_IDS)
      modifies this`nextOrderId, this`sent, tickerSideOrder
      ensures Valid()
      ensures var bid := old(MovedOn(symbol, bidPrice, BUY, clip));
              var ask := old(AskMoved(symbol, bid, askPrice, clip));
              && OrdersOf(symbol) == Sides(bid.order, ask.order)
              && sent == old(sent) + SentBy(symbol, bid) + SentBy(symbol, ask)
              && nextOrderId == old(AskId(bid)) + (if SendsNew(ask) then 1 else 0)
              && QuoteLaw(clientId, old(nextOrderId), old(OrdersOf(symbol).buy), bidPrice, BUY, clip,
                          old(tickerRisk[symbol].CheckPreTradeRisk(BUY, clip)), bid)
              && QuoteLaw(clientId, old(AskId(bid)), old(OrdersOf(symbol).sell), askPrice, SELL, clip,
                          old(tickerRisk[symbol].CheckPreTradeRisk(SELL, clip)), ask)
      ensures forall s :: 0 <= s < MAX_SYMBOLS && s != symbol ==> OrdersOf(s) == old(OrdersOf(s))
    {
      MoveOrder(symbol, bidPrice, BUY, clip);
      MoveOrder(symbol, askPrice, SELL, clip);
    }
  }

  /** Each position and its costs are objects of their own. */
  ghost predicate Separate(positions: seq<PositionInfo>) {
    && (forall i, j :: 0 <= i < j < |positions| ==> positions[i] != positions[j])
    && (forall i, j :: 0 <= i < j < |positions| ==> positions[i].openVwap != positions[j].openVwap)
  }

  ghost predicate AllValid(positions: seq<PositionInfo>)
    reads set i | 0 <= i < |positions| :: positions[i], set i | 0 <= i < |positions| :: positions[i].openVwap
  {
    forall i :: 0 <= i < |positions| ==> positions[i].Valid()
  }

  class TradeEngine {
    const orderManager: OrderManager
    const tickerPosition: seq<PositionInfo>

    /** The risk check of a symbol reads the very position that its executions change. */
    ghost predicate Valid()
      reads orderManager
      reads set i | 0 <= i < |tickerPosition| :: tickerPosition[i]
      reads set i | 0 <= i < |tickerPosition| :: tickerPosition[i].openVwap
    {
      && orderManager.Valid()
      && |tickerPosition| == MAX_SYMBOLS && Separate(tickerPosition) && AllValid(tickerPosition)
      && forall s :: 0 <= s < MAX_SYMBOLS ==> orderManager.tickerRisk[s].positionInfo == tickerPosition[s]
    }

    /** Positions start flat, orders unused. */
    constructor (clientId: nat, cfgs: seq<RiskCfg>)
      requires |cfgs| == MAX_SYMBOLS
      ensures Valid() && fresh(orderManager) && fresh(orderManager.tickerSideOrder)
      ensures forall s :: 0 <= s < MAX_SYMBOLS ==>
                tickerPosition[s].fills == [] && orderManager.OrdersOf(s) == NO_ORDERS
                && orderManager.tickerRisk[s].cfg == cfgs[s]
    {
      var positions := NewPositions(MAX_SYMBOLS);
      var risks := seq(MAX_SYMBOLS, s requires 0 <= s < MAX_SYMBOLS => RiskInfo(positions[s], cfgs[s]));
      orderManager := new OrderManager(clientId, risks);
      tickerPosition := positions;
    }

    static method NewPositions(n: nat) returns (positions: seq<PositionInfo>)
      ensures |positions| == n && Separate(positions) && AllValid(positions)
      ensures forall i :: 0 <= i < n ==> fresh(positions[i]) && fresh(positions[i].openVwap) && positions[i].fills == []
    {
      positions := [];
      while |positions| < n
        invariant |positions| <= n && Separate(positions) && AllValid(positions)
        invariant forall i :: 0 <= i < |positions| ==>
                    fresh(positions[i]) && fresh(positions[i].openVwap) && positions[i].fills == []
      {
        var position := new PositionInfo();
        positions := positions + [position];
      }
    }

    /** An execution changes the position before the order it belongs to; nothing of another
        symbol changes. */
    method OnOrderUpdate(r: Response)
      requires Valid() && r.symbol < MAX_SYMBOLS && (r.kind == FILLED ==> r.side != NoSide)
      modifies orderManager.tickerSideOrder, tickerPosition[r.symbol], tickerPosition[r.symbol].openVwap
      ensures Valid()
      ensures orderManager.OrdersOf(r.symbol) == OnResponse(old(orderManager.OrdersOf(r.symbol)), r)
      ensures tickerPosition[r.symbol].fills
           == old(tickerPosition[r.symbol].fills) + if r.kind == FILLED then [Fill(r.side, r.price, r.executed)] else []
      ensures orderManager.tickerRisk[r.symbol].positionInfo.position
           == old(tickerPosition[r.symbol].position) + if r.kind == FILLED then Signed(r.side, r.executed) else 0
      ensures forall s :: 0 <= s < MAX_SYMBOLS && s != r.symbol ==>
                unchanged(tickerPosition[s]) && unchanged(tickerPosition[s].openVwap)
                && orderManager.OrdersOf(s) == old(orderManager.OrdersOf(s))
    {
      hide Booked, Marked, NetPosition, Cash, TotalQuantity, OpenCost, OnResponse;
      if r.kind == FILLED {
        ghost var fills := tickerPosition[r.symbol].fills;
        tickerPosition[r.symbol].AddFill(Fill(r.side, r.price, r.executed));
        LedgerStep(fills, Fill(r.side, r.price, r.executed));
      }
      orderManager.OnOrderUpdate(r);
    }
  }
}
