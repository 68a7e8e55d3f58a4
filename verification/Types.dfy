/** Vocabulary shared by the exchange and the trading client: identifiers,
    capacities and the messages that travel between them. */
module Types {

  const MAX_SYMBOLS: nat := 8
  const MAX_CLIENTS: nat := 256
  const MAX_ORDER_IDS: nat := 0x10_0000
  const MAX_PRICE_LEVELS: nat := 0x4000

  /** Number of values of the 32-bit unsigned `Quantity`. */
  const QUANTITY_MODULUS: nat := 0x1_0000_0000

  /** `NoSide` is the zero value that messages without a direction carry. */
  datatype Side = NoSide | BUY | SELL

  /** A side an order can have. */
  type Direction = s: Side | s != NoSide witness BUY

  function Opposite(side: Direction): Direction {
    if side == BUY then SELL else BUY
  }

  datatype UpdateType =
    INVALID | CLEAR | ADD | MODIFY | CANCEL | TRADE | SNAPSHOT_START | SNAPSHOT_END

  /** Price priority: higher is better for bids, lower for asks. */
  predicate Better(side: Direction, candidate: int, current: int) {
    if side == BUY then candidate > current else candidate < current
  }

  /** One market data update; every order book consumer sees a sequence of these. */
  datatype Update = Update(
    kind: UpdateType, symbol: nat, orderId: nat, side: Side, price: int, quantity: nat, priority: nat)

  datatype ResponseType = ACCEPTED | CANCELED | FILLED | CANCEL_REJECTED

  /** One report to a client about one of its orders. */
  datatype Response = Response(
    kind: ResponseType, clientId: nat, symbol: nat, clientOrderId: nat, marketOrderId: nat,
    side: Side, price: int, executed: nat, remaining: nat)

  datatype Option<+T> = None | Some(value: T)

  function Min(a: int, b: int): (m: int)
    ensures m <= a && m <= b && (m == a || m == b)
  {
    if a <= b then a else b
  }
}
