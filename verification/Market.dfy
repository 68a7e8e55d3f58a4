/** What a stream of market updates says: the live orders of all symbols, and when the
    stream is one that a consumer can follow. */
module Markets {
  import opened Types

  datatype Entry = Entry(side: Side, price: int, quantity: nat, priority: nat)

  /** (symbol, market order id) of a live order -> what is known about it. */
  type Market = map<(nat, nat), Entry>

  function Apply(m: Market, u: Update): Market {
    match u.kind
    case ADD => m[(u.symbol, u.orderId) := Entry(u.side, u.price, u.quantity, u.priority)]
    case MODIFY =>
      if (u.symbol, u.orderId) in m
      then m[(u.symbol, u.orderId) := m[(u.symbol, u.orderId)].(quantity := u.quantity)] else m
    case CANCEL => m - {(u.symbol, u.orderId)}
    case CLEAR => map key | key in m && key.0 != u.symbol :: m[key]
    case _ => m
  }

  function Replay(m: Market, us: seq<Update>): Market
    decreases |us|
  {
    if us == [] then m else Replay(Apply(m, us[0]), us[1..])
  }

  lemma {:induction false} ReplayConcat(m: Market, a: seq<Update>, b: seq<Update>)
    ensures Replay(m, a + b) == Replay(Replay(m, a), b)
    decreases |a|
  {
    if a == [] {
      assert a + b == b;
    } else {
      assert (a + b)[1..] == a[1..] + b;
      ReplayConcat(Apply(m, a[0]), a[1..], b);
    }
  }

  lemma ReplayOne(m: Market, us: seq<Update>, u: Update)
    ensures Replay(m, us + [u]) == Apply(Replay(m, us), u)
  {
    ReplayConcat(m, us, [u]);
  }

  /** No bid of a symbol reaches an ask of the same symbol. */
  ghost predicate Uncrossed(m: Market) {
    forall bid, ask :: bid in m && ask in m && bid.0 == ask.0 && m[bid].side == BUY && m[ask].side == SELL
                       ==> m[bid].price < m[ask].price
  }

  /** `u` makes sense to a consumer that knows the live orders `m`: an added order is new,
      younger than every other order of its symbol and inside the price grid; any other
      order that is mentioned is live and is described as it is known. */
  ghost predicate Fits(m: Market, u: Update) {
    var key := (u.symbol, u.orderId);
    && u.symbol < MAX_SYMBOLS
    && match u.kind
       case ADD =>
         && u.side != NoSide && 0 <= u.price < MAX_PRICE_LEVELS && 0 < u.quantity < QUANTITY_MODULUS
         && 1 <= u.orderId < MAX_ORDER_IDS
         && forall k :: k in m && k.0 == u.symbol ==> k.1 < u.orderId
       case MODIFY =>
         && key in m && 0 < u.quantity < QUANTITY_MODULUS
         && m[key].(quantity := u.quantity) == Entry(u.side, u.price, u.quantity, u.priority)
       case CANCEL => key in m && m[key].side == u.side && m[key].price == u.price
       case TRADE => key in m && m[key].side == u.side && m[key].price == u.price && u.quantity <= m[key].quantity
       case _ => false
  }

  /** Before and after every update of `us` the market is uncrossed, and every update
      makes sense where it stands. */
  ghost predicate Clean(m: Market, us: seq<Update>)
    decreases |us|
  {
    Uncrossed(m) && (us != [] ==> Fits(m, us[0]) && Clean(Apply(m, us[0]), us[1..]))
  }

  lemma {:induction false} CleanConcat(m: Market, a: seq<Update>, b: seq<Update>)
    requires Clean(m, a) && Clean(Replay(m, a), b)
    ensures Clean(m, a + b)
    decreases |a|
  {
    if a == [] {
      assert a + b == b;
    } else {
      assert (a + b)[1..] == a[1..] + b;
      CleanConcat(Apply(m, a[0]), a[1..], b);
    }
  }

  /** The market a clean stream leads to is uncrossed after every prefix, and the next
      update makes sense there. */
  lemma {:induction false} CleanPrefix(m: Market, us: seq<Update>, n: nat)
    requires Clean(m, us) && n <= |us|
    ensures Clean(m, us[..n]) && Uncrossed(Replay(m, us[..n]))
    ensures n < |us| ==> Fits(Replay(m, us[..n]), us[n])
    decreases n
  {
    if n == 0 {
    } else {
      CleanPrefix(Apply(m, us[0]), us[1..], n - 1);
      assert us[..n][1..] == us[1..][..n - 1];
    }
  }
}
