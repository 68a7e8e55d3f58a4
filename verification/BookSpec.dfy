/** The order book of one symbol as a value: what each request does to it and which
    messages it sends. */
module Books {
  import opened Types
  import opened PriceBands
  import opened HalfBooks

  datatype Config = Config(symbol: nat, band: PriceBand)

  /** Identity of an order from the client's point of view. */
  type Key = (nat, nat)

  /** `index` maps the (client, client order id) of an order to its market order id. */
  datatype Book = Book(bids: Half, asks: Half, index: map<Key, nat>, nextId: nat)

  datatype Request =
    | New(clientId: nat, clientOrderId: nat, side: Direction, price: int, quantity: nat)
    | Cancel(clientId: nat, clientOrderId: nat)

  /** An incoming order while it is being matched. */
  datatype Taker = Taker(
    clientId: nat, clientOrderId: nat, marketOrderId: nat, side: Direction, limitTick: int, quantity: nat)

  datatype Outcome = Outcome(book: Book, responses: seq<Response>, updates: seq<Update>)

  datatype Matched = Matched(
    left: nat, half: Half, index: map<Key, nat>, responses: seq<Response>, updates: seq<Update>)

  function EmptyBook(): Book {
    Book(EmptyHalf(), EmptyHalf(), map[], 1)
  }

  function KeyOf(o: Resting): Key {
    (o.clientId, o.clientOrderId)
  }

  predicate Crosses(side: Direction, limitTick: int, makerTick: int) {
    if side == BUY then makerTick <= limitTick else makerTick >= limitTick
  }

  // ----- messages -----

  function Accepted(cfg: Config, r: Request, id: nat): Response
    requires r.New?
  {
    Response(ACCEPTED, r.clientId, cfg.symbol, r.clientOrderId, id, r.side, r.price, 0, r.quantity)
  }

  function TakerFilled(cfg: Config, t: Taker, tick: int, executed: nat, left: nat): Response {
    Response(FILLED, t.clientId, cfg.symbol, t.clientOrderId, t.marketOrderId, t.side,
             cfg.band.ToPrice(tick), executed, left)
  }

  function MakerFilled(cfg: Config, side: Direction, m: Resting, executed: nat): Response
    requires executed <= m.quantity
  {
    Response(FILLED, m.clientId, cfg.symbol, m.clientOrderId, m.marketOrderId, side,
             cfg.band.ToPrice(m.tick), executed, m.quantity - executed)
  }

  function Traded(cfg: Config, side: Direction, m: Resting, executed: nat): Update {
    Update(TRADE, cfg.symbol, m.marketOrderId, side, cfg.band.ToPrice(m.tick), executed, 0)
  }

  function Gone(cfg: Config, side: Direction, m: Resting): Update {
    Update(UpdateType.CANCEL, cfg.symbol, m.marketOrderId, side, cfg.band.ToPrice(m.tick), 0, 0)
  }

  function Reduced(cfg: Config, side: Direction, m: Resting, executed: nat): Update
    requires executed <= m.quantity
  {
    Update(MODIFY, cfg.symbol, m.marketOrderId, side, cfg.band.ToPrice(m.tick), m.quantity - executed, m.priority)
  }

  function Rested(cfg: Config, side: Direction, o: Resting): Update {
    Update(ADD, cfg.symbol, o.marketOrderId, side, cfg.band.ToPrice(o.tick), o.quantity, o.priority)
  }

  // ----- operations -----

  ghost predicate TicksOk(h: Half) {
    |h.nextPriority| == TICK_COUNT && forall i :: 0 <= i < |h.orders| ==> 0 <= h.orders[i].tick < TICK_COUNT
  }

  /** One fill between the taker and the first maker. */
  function FillFirst(cfg: Config, t: Taker, h: Half, index: map<Key, nat>): (m: Matched)
    requires h.orders != [] && |h.nextPriority| == TICK_COUNT && 0 <= h.orders[0].tick < TICK_COUNT
    ensures m.left <= t.quantity
  {
    var maker := h.orders[0];
    var x := Min(t.quantity, maker.quantity);
    var left := t.quantity - x;
    var side := Opposite(t.side);
    var filled := FillAt(h, 0, x);
    var responses := [TakerFilled(cfg, t, maker.tick, x, left), MakerFilled(cfg, side, maker, x)];
    if x == maker.quantity then
      Matched(left, RemoveAt(filled, 0), index - {KeyOf(maker)}, responses,
              [Traded(cfg, side, maker, x), Gone(cfg, side, maker)])
    else
      Matched(left, filled, index, responses, [Traded(cfg, side, maker, x), Reduced(cfg, side, maker, x)])
  }

  predicate CanTrade(t: Taker, h: Half) {
    t.quantity > 0 && h.orders != [] && Crosses(t.side, t.limitTick, h.orders[0].tick)
  }

  /** Fills the first maker for as long as quantity is left and the prices cross. */
  function Match(cfg: Config, t: Taker, h: Half, index: map<Key, nat>): Matched
    requires TicksOk(h)
    decreases t.quantity + |h.orders|
  {
    if !CanTrade(t, h) then Matched(t.quantity, h, index, [], [])
    else
      var first := FillFirst(cfg, t, h, index);
      var rest := Match(cfg, t.(quantity := first.left), first.half, first.index);
      rest.(responses := first.responses + rest.responses, updates := first.updates + rest.updates)
  }

  function HalfOf(b: Book, side: Direction): Half {
    if side == BUY then b.bids else b.asks
  }

  function WithHalf(b: Book, side: Direction, h: Half): Book {
    if side == BUY then b.(bids := h) else b.(asks := h)
  }

  ghost predicate BookTicksOk(b: Book) {
    TicksOk(b.bids) && TicksOk(b.asks)
  }

  /** Accept, match against the other side, let the rest of the quantity queue. */
  function Add(cfg: Config, b: Book, r: Request): Outcome
    requires r.New? && cfg.band.IsValid() && cfg.band.InBand(r.price) && BookTicksOk(b)
  {
    PriceOfTick(cfg.band, r.price);
    var tick := cfg.band.ToTick(r.price);
    var m := Match(cfg, Taker(r.clientId, r.clientOrderId, b.nextId, r.side, tick, r.quantity),
                   HalfOf(b, Opposite(r.side)), b.index);
    var traded := WithHalf(b, Opposite(r.side), m.half).(index := m.index, nextId := b.nextId + 1);
    var accepted := [Accepted(cfg, r, b.nextId)];
    if m.left == 0 then Outcome(traded, accepted + m.responses, m.updates)
    else
      var own := HalfOf(b, r.side);
      var x := Resting(r.clientId, r.clientOrderId, b.nextId, tick, m.left, own.nextPriority[tick]);
      Outcome(WithHalf(traded, r.side, Insert(r.side, own, tick, r.clientId, r.clientOrderId, b.nextId, m.left))
                .(index := m.index[KeyOf(x) := b.nextId]),
              accepted + m.responses, m.updates + [Rested(cfg, r.side, x)])
  }

  /** Position of the order with a market order id; the length when there is none. */
  function Position(orders: seq<Resting>, id: nat): (p: nat)
    ensures p <= |orders|
    ensures p < |orders| ==> orders[p].marketOrderId == id
    ensures forall i :: 0 <= i < p ==> orders[i].marketOrderId != id
  {
    if orders == [] || orders[0].marketOrderId == id then 0 else 1 + Position(orders[1..], id)
  }

  function Rejected(cfg: Config, clientId: nat, clientOrderId: nat): Response {
    Response(CANCEL_REJECTED, clientId, cfg.symbol, clientOrderId, 0, NoSide, 0, 0, 0)
  }

  function Withdrawn(cfg: Config, side: Direction, o: Resting): Response {
    Response(CANCELED, o.clientId, cfg.symbol, o.clientOrderId, o.marketOrderId, side,
             cfg.band.ToPrice(o.tick), 0, o.quantity)
  }

  function RemoveFrom(cfg: Config, b: Book, side: Direction, i: nat): Outcome
    requires BookTicksOk(b) && i < |HalfOf(b, side).orders|
  {
    var h := HalfOf(b, side);
    var o := h.orders[i];
    Outcome(WithHalf(b, side, RemoveAt(h, i)).(index := b.index - {KeyOf(o)}),
            [Withdrawn(cfg, side, o)], [Gone(cfg, side, o)])
  }

  /** Withdraw the order the index leads to; reject when it leads to none. */
  function CancelOrder(cfg: Config, b: Book, clientId: nat, clientOrderId: nat): Outcome
    requires BookTicksOk(b)
  {
    var rejected := Outcome(b, [Rejected(cfg, clientId, clientOrderId)], []);
    if (clientId, clientOrderId) !in b.index then rejected
    else
      var id := b.index[(clientId, clientOrderId)];
      var i, j := Position(b.bids.orders, id), Position(b.asks.orders, id);
      if i < |b.bids.orders| then RemoveFrom(cfg, b, BUY, i)
      else if j < |b.asks.orders| then RemoveFrom(cfg, b, SELL, j)
      else rejected
  }

  /** What a client may ask: a price of the band, a positive 32-bit quantity. */
  predicate Acceptable(cfg: Config, r: Request)
    requires cfg.band.IsValid()
  {
    && r.clientId < MAX_CLIENTS && r.clientOrderId < MAX_ORDER_IDS
    && (r.New? ==> cfg.band.InBand(r.price) && 0 < r.quantity < QUANTITY_MODULUS)
  }

  function Step(cfg: Config, b: Book, r: Request): Outcome
    requires cfg.band.IsValid() && Acceptable(cfg, r) && BookTicksOk(b)
  {
    match r
    case New(_, _, _, _, _) => Add(cfg, b, r)
    case Cancel(clientId, clientOrderId) => CancelOrder(cfg, b, clientId, clientOrderId)
  }

  // ----- invariant -----

  /** Market order ids are distinct, below the counter, and increase along each level. */
  ghost predicate IdsOk(orders: seq<Resting>, nextId: nat) {
    && (forall i :: 0 <= i < |orders| ==> 1 <= orders[i].marketOrderId < nextId)
    && (forall i, j :: 0 <= i < j < |orders| ==>
          && orders[i].marketOrderId != orders[j].marketOrderId
          && (orders[i].tick == orders[j].tick ==> orders[i].marketOrderId < orders[j].marketOrderId))
  }

  ghost predicate SideOk(side: Direction, h: Half, nextId: nat) {
    WellFormed(side, h) && Positive(h.orders) && IdsOk(h.orders, nextId)
  }

  /** No bid reaches any ask, and no order is on both sides. */
  ghost predicate Apart(bids: seq<Resting>, asks: seq<Resting>) {
    forall i, j :: 0 <= i < |bids| && 0 <= j < |asks| ==>
      bids[i].tick < asks[j].tick && bids[i].marketOrderId != asks[j].marketOrderId
  }

  ghost predicate HasId(orders: seq<Resting>, id: nat) {
    exists i :: 0 <= i < |orders| && orders[i].marketOrderId == id
  }

  ghost predicate Listed(orders: seq<Resting>, key: Key, id: nat) {
    exists i :: 0 <= i < |orders| && KeyOf(orders[i]) == key && orders[i].marketOrderId == id
  }

  /** The index never dangles: each entry leads to a resting order with that key. */
  ghost predicate IndexSound(b: Book) {
    forall key :: key in b.index ==>
        Listed(b.bids.orders, key, b.index[key]) || Listed(b.asks.orders, key, b.index[key])
  }

  ghost predicate Invariant(b: Book) {
    && b.nextId >= 1
    && SideOk(BUY, b.bids, b.nextId) && SideOk(SELL, b.asks, b.nextId)
    && Apart(b.bids.orders, b.asks.orders)
    && IndexSound(b)
  }

  lemma InvariantGivesTicks(side: Direction, h: Half)
    requires WellFormed(side, h)
    ensures TicksOk(h)
  {
    assert forall i :: 0 <= i < |h.orders| ==> OrderFits(h.orders[i], h.nextPriority);
  }
}
