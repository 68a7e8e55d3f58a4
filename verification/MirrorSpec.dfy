/** The mirror of one symbol's order book as a value, and why it follows the market. */
module MirrorSpecs {
  import opened Types
  import opened Markets
  import opened Snapshots

  /** Prices from best to worst on either side, the ids queued at each price, and what is
      known about each id. */
  datatype Mirror = Mirror(bids: seq<int>, asks: seq<int>, queues: map<int, seq<nat>>, entries: map<nat, Entry>)

  datatype BBO = BBO(bidPrice: int, askPrice: int, bidQuantity: nat, askQuantity: nat)

  const NO_MIRROR := Mirror([], [], map[], map[])
  const NO_BBO := BBO(0, 0, 0, 0)

  function PricesOf(m: Mirror, side: Direction): seq<int> {
    if side == BUY then m.bids else m.asks
  }

  function WithPrices(m: Mirror, side: Direction, prices: seq<int>): Mirror {
    if side == BUY then m.(bids := prices) else m.(asks := prices)
  }

  /** Number of prices better than `p`. */
  function Rank(side: Direction, prices: seq<int>, p: int): (k: nat)
    ensures k <= |prices|
  {
    if prices == [] || !Better(side, prices[0], p) then 0 else 1 + Rank(side, prices[1..], p)
  }

  function InsertPrice(side: Direction, prices: seq<int>, p: int): seq<int> {
    var k := Rank(side, prices, p);
    prices[..k] + [p] + prices[k..]
  }

  function IndexOf(s: seq<nat>, x: nat): (k: nat)
    ensures k <= |s| && (k < |s| ==> s[k] == x) && (k == |s| ==> x !in s)
  {
    if s == [] || s[0] == x then 0 else 1 + IndexOf(s[1..], x)
  }

  function Without<T>(s: seq<T>, k: nat): seq<T>
    requires k < |s|
  {
    s[..k] + s[k + 1..]
  }

  /** A new order queues last at its price; a new price takes its place among the prices. */
  function AddOrder(m: Mirror, side: Direction, id: nat, e: Entry): Mirror {
    var m' := m.(entries := m.entries[id := e]);
    if e.price in m.queues then m'.(queues := m.queues[e.price := m.queues[e.price] + [id]])
    else WithPrices(m'.(queues := m.queues[e.price := [id]]), side, InsertPrice(side, PricesOf(m, side), e.price))
  }

  /** An order leaves its queue; the last order at a price takes the price with it. */
  function RemoveOrder(m: Mirror, side: Direction, id: nat): Mirror
    requires id in m.entries && m.entries[id].price in m.queues && id in m.queues[m.entries[id].price]
    requires Rank(side, PricesOf(m, side), m.entries[id].price) < |PricesOf(m, side)|
  {
    var p := m.entries[id].price;
    var q := m.queues[p];
    var m' := m.(entries := m.entries - {id});
    if |q| == 1 then
      WithPrices(m'.(queues := m.queues - {p}), side, Without(PricesOf(m, side), Rank(side, PricesOf(m, side), p)))
    else m'.(queues := m.queues[p := Without(q, IndexOf(q, id))])
  }

  function ModifyOrder(m: Mirror, id: nat, quantity: nat): Mirror
    requires id in m.entries
  {
    m.(entries := m.entries[id := m.entries[id].(quantity := quantity)])
  }

  // ----- invariant -----

  ghost predicate SortedPrices(side: Direction, prices: seq<int>) {
    forall i, j :: 0 <= i < j < |prices| ==> Better(side, prices[i], prices[j])
  }

  ghost predicate Increasing(ids: seq<nat>) {
    forall i, j :: 0 <= i < j < |ids| ==> ids[i] < ids[j]
  }

  /** The queue at price `p` holds, oldest first, live orders of one side at that price. */
  ghost predicate QueueOk(m: Mirror, p: int)
    requires p in m.queues
  {
    var q := m.queues[p];
    && 0 <= p < MAX_PRICE_LEVELS && q != [] && Increasing(q)
    && (forall j :: 0 <= j < |q| ==> InQueue(m, p, q[j]))
  }

  ghost predicate InQueue(m: Mirror, p: int, id: nat) {
    && 1 <= id < MAX_ORDER_IDS && id in m.entries && m.entries[id].price == p
    && m.entries[id].side == (if p in m.bids then BUY else SELL) && m.entries[id].quantity < QUANTITY_MODULUS
  }

  ghost predicate EntryQueued(m: Mirror, id: nat)
    requires id in m.entries
  {
    m.entries[id].price in m.queues && id in m.queues[m.entries[id].price]
  }

  ghost predicate MirrorOk(m: Mirror) {
    && SortedPrices(BUY, m.bids) && SortedPrices(SELL, m.asks)
    && (forall p :: p in m.queues <==> p in m.bids || p in m.asks)
    && (forall p :: p in m.bids ==> p !in m.asks)
    && (forall p :: p in m.queues ==> QueueOk(m, p))
    && (forall id :: id in m.entries ==> EntryQueued(m, id))
  }

  /** What an update must satisfy for the mirror to take it in. */
  ghost predicate Acceptable(m: Mirror, u: Update) {
    match u.kind
    case ADD =>
      && u.side != NoSide && 0 <= u.price < MAX_PRICE_LEVELS && 1 <= u.orderId < MAX_ORDER_IDS
      && u.quantity < QUANTITY_MODULUS
      && (forall id :: id in m.entries ==> id < u.orderId)
      && (u.price in m.queues ==> u.price in PricesOf(m, u.side))
    case MODIFY =>
      && u.orderId in m.entries && u.quantity < QUANTITY_MODULUS
      && m.entries[u.orderId].side == u.side && m.entries[u.orderId].price == u.price
    case CANCEL =>
      u.orderId in m.entries && m.entries[u.orderId].side == u.side && m.entries[u.orderId].price == u.price
    case _ => true
  }

  lemma {:induction false} RankSplits(side: Direction, prices: seq<int>, p: int)
    requires SortedPrices(side, prices)
    ensures var k := Rank(side, prices, p);
            && (forall i :: 0 <= i < k ==> Better(side, prices[i], p))
            && (forall i :: k <= i < |prices| ==> !Better(side, prices[i], p))
            && (p in prices ==> k < |prices| && prices[k] == p)
  {
    if prices == [] || !Better(side, prices[0], p) {
    } else {
      assert forall i, j :: 0 <= i < j < |prices[1..]| ==> Better(side, prices[1..][i], prices[1..][j]);
      RankSplits(side, prices[1..], p);
    }
  }

  /** The side of an order is that of the price list its price is on. */
  lemma OrderPlace(m: Mirror, id: nat)
    requires MirrorOk(m) && id in m.entries
    ensures m.entries[id].side != NoSide
    ensures m.entries[id].price in m.queues && id in m.queues[m.entries[id].price]
    ensures m.entries[id].price in PricesOf(m, m.entries[id].side)
    ensures Rank(m.entries[id].side, PricesOf(m, m.entries[id].side), m.entries[id].price)
          < |PricesOf(m, m.entries[id].side)|
  {
    assert EntryQueued(m, id);
    var p := m.entries[id].price;
    assert QueueOk(m, p);
    var j :| 0 <= j < |m.queues[p]| && m.queues[p][j] == id;
    assert InQueue(m, p, id);
    RankSplits(m.entries[id].side, PricesOf(m, m.entries[id].side), p);
  }

  function CancelOrder(m: Mirror, id: nat): Mirror
    requires MirrorOk(m) && id in m.entries
  {
    OrderPlace(m, id);
    RemoveOrder(m, m.entries[id].side, id)
  }

  function ApplyMirror(m: Mirror, u: Update): Mirror
    requires MirrorOk(m) && Acceptable(m, u)
  {
    match u.kind
    case ADD => AddOrder(m, u.side, u.orderId, Entry(u.side, u.price, u.quantity, u.priority))
    case MODIFY => ModifyOrder(m, u.orderId, u.quantity)
    case CANCEL => CancelOrder(m, u.orderId)
    case CLEAR => NO_MIRROR
    case _ => m
  }

  // ----- best bid and offer -----

  function SumQuantity(entries: map<nat, Entry>, ids: seq<nat>): nat {
    if ids == [] then 0
    else SumQuantity(entries, ids[..|ids| - 1])
         + if ids[|ids| - 1] in entries then entries[ids[|ids| - 1]].quantity else 0
  }

  /** The best price of one side and the 32-bit total resting at it. */
  function Top(m: Mirror, side: Direction): (int, nat) {
    var prices := PricesOf(m, side);
    if prices == [] || prices[0] !in m.queues then (0, 0)
    else (prices[0], SumQuantity(m.entries, m.queues[prices[0]]) % 0x1_0000_0000)
  }

  function TopOfBook(m: Mirror): BBO {
    BBO(Top(m, BUY).0, Top(m, SELL).0, Top(m, BUY).1, Top(m, SELL).1)
  }

  /** The test made before an update is applied: may it change the top of this side? */
  predicate Touches(m: Mirror, u: Update, side: Direction) {
    var prices := PricesOf(m, side);
    u.kind == CLEAR || (u.side == side && (prices == [] || !Better(side, prices[0], u.price)))
  }
}
