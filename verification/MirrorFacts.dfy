/** A mirror that follows a sound stream stays well-formed and shows the market. */
module MirrorFacts {
  import opened Types
  import opened Markets
  import opened Snapshots
  import opened MirrorSpecs

  /** A sequence with one more element. */
  lemma InsertedAt<T>(s: seq<T>, k: nat, x: T)
    requires k <= |s|
    ensures var s' := s[..k] + [x] + s[k..];
            && |s'| == |s| + 1 && s'[k] == x
            && (forall i :: 0 <= i < |s'| && i != k ==> s'[i] == s[if i < k then i else i - 1])
            && (forall y :: y in s' <==> y in s || y == x)
  {
    assert s == s[..k] + s[k..];
  }

  lemma InsertPriceOk(side: Direction, prices: seq<int>, p: int)
    requires SortedPrices(side, prices) && p !in prices
    ensures SortedPrices(side, InsertPrice(side, prices, p))
    ensures forall x :: x in InsertPrice(side, prices, p) <==> x in prices || x == p
  {
    RankSplits(side, prices, p);
    var k := Rank(side, prices, p);
    InsertedAt(prices, k, p);
    var prices' := InsertPrice(side, prices, p);
    hide Rank, InsertPrice;
    forall i, j | 0 <= i < j < |prices'|
      ensures Better(side, prices'[i], prices'[j])
    {
      if i != k && j != k {
        assert Better(side, prices[if i < k then i else i - 1], prices[if j < k then j else j - 1]);
      } else if i == k {
        assert prices'[j] == prices[j - 1] && prices[j - 1] in prices;
      }
    }
  }

  /** A sequence with one element less. */
  lemma WithoutAt<T>(s: seq<T>, k: nat)
    requires k < |s|
    ensures |Without(s, k)| == |s| - 1
    ensures forall i :: 0 <= i < |s| - 1 ==> Without(s, k)[i] == s[if i < k then i else i + 1]
    ensures forall x :: x in Without(s, k) ==> x in s
    ensures forall x :: x in s ==> x in Without(s, k) || x == s[k]
  {
    assert s == s[..k] + [s[k]] + s[k + 1..];
  }

  lemma RemovePriceOk(side: Direction, prices: seq<int>, p: int)
    requires SortedPrices(side, prices) && p in prices
    ensures Rank(side, prices, p) < |prices|
    ensures var prices' := Without(prices, Rank(side, prices, p));
            SortedPrices(side, prices') && forall x :: x in prices' <==> x in prices && x != p
  {
    RankSplits(side, prices, p);
    hide Rank;
    var k := Rank(side, prices, p);
    WithoutAt(prices, k);
    hide Without;
    var prices' := Without(prices, k);
    forall i, j | 0 <= i < j < |prices'|
      ensures Better(side, prices'[i], prices'[j])
    {
      assert Better(side, prices[if i < k then i else i + 1], prices[if j < k then j else j + 1]);
    }
    forall i | 0 <= i < |prices'|
      ensures prices'[i] != p
    {
      assert if i < k then Better(side, prices[i], prices[k]) else Better(side, prices[k], prices[i + 1]);
    }
  }

  /** The addition, said by membership. */
  ghost predicate Added(m: Mirror, m': Mirror, u: Update) {
    && m'.entries == m.entries[u.orderId := Entry(u.side, u.price, u.quantity, u.priority)]
    && m'.queues == m.queues[u.price := (if u.price in m.queues then m.queues[u.price] else []) + [u.orderId]]
    && SortedPrices(BUY, m'.bids) && SortedPrices(SELL, m'.asks)
    && (forall x :: x in m'.bids <==> x in m.bids || (x == u.price && u.side == BUY))
    && (forall x :: x in m'.asks <==> x in m.asks || (x == u.price && u.side == SELL))
  }

  lemma AddShape(m: Mirror, u: Update)
    requires MirrorOk(m) && u.kind == ADD && Acceptable(m, u)
    ensures Added(m, ApplyMirror(m, u), u)
  {
    hide Rank, InsertPrice, QueueOk, EntryQueued, SortedPrices;
    if u.price in m.queues {
      assert u.price in PricesOf(m, u.side);
    } else {
      assert [] + [u.orderId] == [u.orderId];
      InsertPriceOk(u.side, PricesOf(m, u.side), u.price);
    }
  }

  lemma AddKeeps(m: Mirror, u: Update)
    requires MirrorOk(m) && u.kind == ADD && Acceptable(m, u)
    ensures MirrorOk(ApplyMirror(m, u))
  {
    AddShape(m, u);
    var m' := ApplyMirror(m, u);
    AddPrices(m, m', u);
    AddQueues(m, m', u);
    AddEntries(m, m', u);
    hide ApplyMirror, SortedPrices, QueueOk, EntryQueued, Acceptable;
  }

  lemma AddPrices(m: Mirror, m': Mirror, u: Update)
    requires MirrorOk(m) && u.kind == ADD && Acceptable(m, u) && Added(m, m', u)
    ensures forall p :: p in m'.queues <==> p in m'.bids || p in m'.asks
    ensures forall p :: p in m'.bids ==> p !in m'.asks
  {
    hide SortedPrices, EntryQueued, QueueOk;
    assert u.price in m.queues ==> u.price in PricesOf(m, u.side);
  }

  lemma AddEntries(m: Mirror, m': Mirror, u: Update)
    requires MirrorOk(m) && Added(m, m', u)
    ensures forall k :: k in m'.entries ==> EntryQueued(m', k)
  {
    forall k | k in m'.entries
      ensures EntryQueued(m', k)
    {
      if k != u.orderId {
        assert EntryQueued(m, k);
      }
    }
  }

  lemma AddQueues(m: Mirror, m': Mirror, u: Update)
    requires MirrorOk(m) && u.kind == ADD && Acceptable(m, u) && Added(m, m', u)
    ensures forall x :: x in m'.queues ==> QueueOk(m', x)
  {
    hide SortedPrices, EntryQueued;
    forall x | x in m'.queues
      ensures QueueOk(m', x)
    {
      if x in m.queues {
        assert x == u.price ==> u.price in PricesOf(m, u.side);
        AddQueueOk(m, m', u, x);
      } else {
        assert InQueue(m', x, u.orderId);
      }
    }
  }

  lemma AddQueueOk(m: Mirror, m': Mirror, u: Update, x: int)
    requires u.kind == ADD && Acceptable(m, u) && x in m.queues && QueueOk(m, x) && x in m'.queues
    requires m'.entries == m.entries[u.orderId := Entry(u.side, u.price, u.quantity, u.priority)]
    requires m'.queues[x] == m.queues[x] + (if x == u.price then [u.orderId] else [])
    requires x in m'.bids <==> x in m.bids
    requires x == u.price ==> (u.side == BUY <==> x in m.bids)
    ensures QueueOk(m', x)
  {
    forall j | 0 <= j < |m.queues[x]|
      ensures InQueue(m', x, m.queues[x][j]) && m.queues[x][j] < u.orderId
    {
      assert InQueue(m, x, m.queues[x][j]);
    }
    assert x == u.price ==> InQueue(m', x, u.orderId);
  }

  lemma ModifyKeeps(m: Mirror, u: Update)
    requires MirrorOk(m) && u.kind == MODIFY && Acceptable(m, u)
    ensures MirrorOk(ApplyMirror(m, u))
  {
    var m' := ApplyMirror(m, u);
    forall x | x in m'.queues
      ensures QueueOk(m', x)
    {
      assert QueueOk(m, x);
      forall j | 0 <= j < |m.queues[x]|
        ensures InQueue(m', x, m.queues[x][j])
      {
        assert InQueue(m, x, m.queues[x][j]);
      }
    }
    forall k | k in m'.entries
      ensures EntryQueued(m', k)
    {
      assert EntryQueued(m, k);
    }
  }

  lemma WithoutIncreasing(q: seq<nat>, k: nat)
    requires Increasing(q) && k < |q|
    ensures Increasing(Without(q, k))
    ensures forall x :: x in Without(q, k) <==> x in q && x != q[k]
  {
    WithoutAt(q, k);
    hide Without;
  }

  /** Taking an order out leaves the queue at `x` in order. */
  lemma RemoveQueueOk(m: Mirror, m': Mirror, id: nat, x: int)
    requires id in m.entries && x in m.queues && QueueOk(m, x)
    requires m'.entries == m.entries - {id} && x in m'.queues && (x in m'.bids <==> x in m.bids)
    requires m'.queues[x] != [] && Increasing(m'.queues[x])
    requires forall k :: k in m'.queues[x] <==> k in m.queues[x] && k != id
    ensures QueueOk(m', x)
  {
    forall j | 0 <= j < |m'.queues[x]|
      ensures InQueue(m', x, m'.queues[x][j])
    {
      assert m'.queues[x][j] in m.queues[x];
      var i :| 0 <= i < |m.queues[x]| && m.queues[x][i] == m'.queues[x][j];
      assert InQueue(m, x, m.queues[x][i]);
    }
  }

  lemma QueueIsOk(m: Mirror, p: int)
    requires MirrorOk(m) && p in m.queues
    ensures QueueOk(m, p)
  {
  }

  /** An order queued at its price is queued nowhere else. */
  lemma QueuedOnce(m: Mirror, id: nat, x: int)
    requires id in m.entries && x in m.queues && QueueOk(m, x) && x != m.entries[id].price
    ensures id !in m.queues[x]
  {
  }

  /** The removal, said by membership. */
  ghost predicate Removed(m: Mirror, m': Mirror, p: int, id: nat) {
    && m'.entries == m.entries - {id} && p in m.queues && id in m.queues[p]
    && SortedPrices(BUY, m'.bids) && SortedPrices(SELL, m'.asks)
    && (p in m'.queues ==> m'.bids == m.bids && m'.asks == m.asks)
    && (p !in m'.queues ==> (forall x :: x in m'.bids <==> x in m.bids && x != p)
                            && (forall x :: x in m'.asks <==> x in m.asks && x != p) && |m.queues[p]| == 1)
    && (forall x :: x != p ==> (x in m'.queues <==> x in m.queues))
    && (forall x :: x in m.queues && x != p ==> m'.queues[x] == m.queues[x])
    && (p in m'.queues ==> m'.queues[p] != [] && Increasing(m'.queues[p])
                           && forall k :: k in m'.queues[p] <==> k in m.queues[p] && k != id)
  }

  lemma RemoveShape(m: Mirror, u: Update)
    requires MirrorOk(m) && u.kind == CANCEL && Acceptable(m, u)
    ensures Removed(m, ApplyMirror(m, u), u.price, u.orderId)
  {
    OrderPlace(m, u.orderId);
    assert QueueOk(m, u.price);
    assert u.price !in PricesOf(m, Opposite(u.side));
    RemoveCases(m, u);
    hide MirrorOk, Acceptable, ApplyMirror, Rank, IndexOf, QueueOk, Increasing, Without, SortedPrices, Removed;
    if |m.queues[u.price]| == 1 {
      LastRemoved(m, u.side, u.price, u.orderId);
    } else {
      OneRemoved(m, u.price, u.orderId);
    }
  }

  /** The last order at a price takes the price with it. */
  lemma LastRemoved(m: Mirror, side: Direction, p: int, id: nat)
    requires SortedPrices(BUY, m.bids) && SortedPrices(SELL, m.asks)
    requires p in PricesOf(m, side) && p !in PricesOf(m, Opposite(side))
    requires p in m.queues && id in m.queues[p] && |m.queues[p]| == 1
    ensures Rank(side, PricesOf(m, side), p) < |PricesOf(m, side)|
    ensures Removed(m, WithPrices(m.(entries := m.entries - {id}, queues := m.queues - {p}), side,
                                  Without(PricesOf(m, side), Rank(side, PricesOf(m, side), p))), p, id)
  {
    RemovePriceOk(side, PricesOf(m, side), p);
    hide Rank, SortedPrices, Without, Better;
  }

  lemma OneRemoved(m: Mirror, p: int, id: nat)
    requires SortedPrices(BUY, m.bids) && SortedPrices(SELL, m.asks)
    requires p in m.queues && id in m.queues[p] && |m.queues[p]| > 1 && Increasing(m.queues[p])
    ensures IndexOf(m.queues[p], id) < |m.queues[p]|
    ensures Removed(m, m.(entries := m.entries - {id},
                          queues := m.queues[p := Without(m.queues[p], IndexOf(m.queues[p], id))]), p, id)
  {
    var q := m.queues[p];
    WithoutIncreasing(q, IndexOf(q, id));
    assert |Without(q, IndexOf(q, id))| == |q| - 1;
    hide SortedPrices, Without, Increasing, IndexOf;
  }

  /** What removing an order makes of the mirror. */
  lemma RemoveCases(m: Mirror, u: Update)
    requires MirrorOk(m) && u.kind == CANCEL && Acceptable(m, u)
    ensures var p, id := u.price, u.orderId;
            && p in m.queues && id in m.queues[p]
            && var q, k := m.queues[p], Rank(u.side, PricesOf(m, u.side), p);
               && k < |PricesOf(m, u.side)| && IndexOf(q, id) < |q|
               && ApplyMirror(m, u) ==
                  (if |q| == 1 then
                     WithPrices(m.(entries := m.entries - {id}, queues := m.queues - {p}), u.side,
                                Without(PricesOf(m, u.side), k))
                   else m.(entries := m.entries - {id}, queues := m.queues[p := Without(q, IndexOf(q, id))]))
               && SortedPrices(BUY, m.bids) && SortedPrices(SELL, m.asks)
  {
    hide Rank, IndexOf, QueueOk, Better, Increasing, Without, SortedPrices;
    OrderPlace(m, u.orderId);
  }

  lemma RemoveKeeps(m: Mirror, u: Update)
    requires MirrorOk(m) && u.kind == CANCEL && Acceptable(m, u)
    ensures MirrorOk(ApplyMirror(m, u))
  {
    RemoveShape(m, u);
    var m', p, id := ApplyMirror(m, u), u.price, u.orderId;
    RemovePrices(m, m', p, id);
    RemoveQueues(m, m', p, id);
    RemoveEntries(m, m', p, id);
    hide ApplyMirror, Increasing, SortedPrices, QueueOk, EntryQueued;
  }

  lemma RemovePrices(m: Mirror, m': Mirror, p: int, id: nat)
    requires MirrorOk(m) && Removed(m, m', p, id)
    ensures forall x :: x in m'.queues <==> x in m'.bids || x in m'.asks
    ensures forall x :: x in m'.bids ==> x !in m'.asks
  {
    hide SortedPrices, EntryQueued, QueueOk;
  }

  lemma RemoveEntries(m: Mirror, m': Mirror, p: int, id: nat)
    requires MirrorOk(m) && Removed(m, m', p, id)
    ensures forall k :: k in m'.entries ==> EntryQueued(m', k)
  {
    hide QueueOk, SortedPrices;
    forall k | k in m'.entries
      ensures EntryQueued(m', k)
    {
      assert EntryQueued(m, k);
      StillQueued(m, m', p, id, k);
    }
  }

  lemma RemoveQueues(m: Mirror, m': Mirror, p: int, id: nat)
    requires MirrorOk(m) && Removed(m, m', p, id) && id in m.entries && m.entries[id].price == p
    ensures forall x :: x in m'.queues ==> QueueOk(m', x)
  {
    forall x | x in m'.queues
      ensures QueueOk(m', x)
    {
      assert QueueOk(m, x);
      RemovePrices(m, m', p, id);
      hide MirrorOk;
      if x != p {
        QueuedOnce(m, id, x);
      }
      RemoveQueueOk(m, m', id, x);
    }
  }

  lemma StillQueued(m: Mirror, m': Mirror, p: int, id: nat, k: nat)
    requires k in m.entries && k != id && k in m'.entries && m'.entries[k] == m.entries[k] && EntryQueued(m, k)
    requires p in m.queues && id in m.queues[p] && (p !in m'.queues ==> |m.queues[p]| == 1)
    requires m.entries[k].price != p ==>
               m.entries[k].price in m'.queues && m'.queues[m.entries[k].price] == m.queues[m.entries[k].price]
    requires p in m'.queues ==> forall x :: x in m'.queues[p] <==> x in m.queues[p] && x != id
    ensures EntryQueued(m', k)
  {
    if p !in m'.queues {
      assert m.queues[p] == [m.queues[p][0]];
    }
  }

  /** Every acceptable update keeps the mirror well-formed. */
  lemma ApplyKeeps(m: Mirror, u: Update)
    requires MirrorOk(m) && Acceptable(m, u)
    ensures MirrorOk(ApplyMirror(m, u))
  {
    hide MirrorOk, Acceptable;
    match u.kind
    case ADD => AddKeeps(m, u);
    case MODIFY => ModifyKeeps(m, u);
    case CANCEL => RemoveKeeps(m, u);
    case CLEAR => EmptyMirrorOk();
    case _ =>
  }

  lemma EmptyMirrorOk()
    ensures MirrorOk(NO_MIRROR)
  {
  }

  // ----- the mirror shows the market -----

  /** The orders of one symbol. */
  ghost predicate ShowsMarket(m: Mirror, market: Market, symbol: nat) {
    forall id: nat {:trigger (symbol, id)} ::
      (id in m.entries <==> (symbol, id) in market) && (id in m.entries ==> m.entries[id] == market[(symbol, id)])
  }

  /** An update that makes sense for the market is acceptable to the mirror, and afterwards
      the mirror shows the market after it. */
  lemma FollowsMarket(m: Mirror, market: Market, symbol: nat, u: Update)
    requires MirrorOk(m) && ShowsMarket(m, market, symbol) && u.symbol == symbol
    requires Fits(market, u) || u.kind == CLEAR
    requires Uncrossed(Apply(market, u))
    ensures Acceptable(m, u) && MirrorOk(ApplyMirror(m, u)) && ShowsMarket(ApplyMirror(m, u), Apply(market, u), symbol)
  {
    FitsAcceptable(m, market, symbol, u);
    ApplyKeeps(m, u);
    EntriesAfter(m, u);
    hide MirrorOk, Acceptable, ApplyMirror, Uncrossed;
    ShowsAfter(m, market, symbol, u, ApplyMirror(m, u));
  }

  lemma FitsAcceptable(m: Mirror, market: Market, symbol: nat, u: Update)
    requires MirrorOk(m) && ShowsMarket(m, market, symbol) && u.symbol == symbol
    requires Fits(market, u) || u.kind == CLEAR
    requires Uncrossed(Apply(market, u))
    ensures Acceptable(m, u)
  {
    hide MirrorOk, Uncrossed;
    if u.kind == ADD {
      AddAcceptable(m, market, symbol, u);
    } else if u.kind in {MODIFY, CANCEL} {
      assert (symbol, u.orderId) in market;
    }
  }

  /** What is known about the orders after an update. */
  lemma EntriesAfter(m: Mirror, u: Update)
    requires MirrorOk(m) && Acceptable(m, u)
    ensures u.kind in {MODIFY, CANCEL} ==> u.orderId in m.entries
    ensures ApplyMirror(m, u).entries ==
            match u.kind
            case ADD => m.entries[u.orderId := Entry(u.side, u.price, u.quantity, u.priority)]
            case MODIFY => m.entries[u.orderId := m.entries[u.orderId].(quantity := u.quantity)]
            case CANCEL => m.entries - {u.orderId}
            case CLEAR => map[]
            case _ => m.entries
  {
    hide Rank, IndexOf, InsertPrice, Without;
    if u.kind == CANCEL {
      OrderPlace(m, u.orderId);
    }
    hide MirrorOk;
  }

  lemma ShowsAfter(m: Mirror, market: Market, symbol: nat, u: Update, m': Mirror)
    requires ShowsMarket(m, market, symbol) && u.symbol == symbol
    requires u.kind in {MODIFY, CANCEL} ==> u.orderId in m.entries
    requires m'.entries ==
             match u.kind
             case ADD => m.entries[u.orderId := Entry(u.side, u.price, u.quantity, u.priority)]
             case MODIFY => m.entries[u.orderId := m.entries[u.orderId].(quantity := u.quantity)]
             case CANCEL => m.entries - {u.orderId}
             case CLEAR => map[]
             case _ => m.entries
    ensures ShowsMarket(m', Apply(market, u), symbol)
  {
    var market' := Apply(market, u);
    forall id: nat
      ensures (id in m'.entries <==> (symbol, id) in market')
              && (id in m'.entries ==> m'.entries[id] == market'[(symbol, id)])
    {
      assert id in m.entries <==> (symbol, id) in market;
      assert (symbol, u.orderId) in market <==> u.orderId in m.entries;
    }
  }

  /** A shared slot is never wanted by two levels: an uncrossed market has no price on both sides. */
  lemma AddAcceptable(m: Mirror, market: Market, symbol: nat, u: Update)
    requires MirrorOk(m) && ShowsMarket(m, market, symbol) && u.symbol == symbol && u.kind == ADD
    requires Fits(market, u) && Uncrossed(Apply(market, u))
    ensures Acceptable(m, u)
  {
    forall id | id in m.entries
      ensures id < u.orderId
    {
      assert (symbol, id) in market;
    }
    if u.price in m.queues {
      assert QueueOk(m, u.price);
      var id := m.queues[u.price][0];
      assert InQueue(m, u.price, id);
      var market' := Apply(market, u);
      assert (symbol, id) in market && (symbol, id) in market' && (symbol, u.orderId) in market';
      assert market'[(symbol, id)].side != NoSide && market'[(symbol, id)].price == u.price;
    }
  }

  /** Updates of other symbols do not concern this mirror. */
  lemma OtherSymbolIgnored(m: Mirror, market: Market, symbol: nat, u: Update)
    requires ShowsMarket(m, market, symbol) && u.symbol != symbol
    ensures ShowsMarket(m, Apply(market, u), symbol)
  {
    forall id: nat
      ensures (id in m.entries <==> (symbol, id) in Apply(market, u))
              && (id in m.entries ==> m.entries[id] == Apply(market, u)[(symbol, id)])
    {
      assert id in m.entries <==> (symbol, id) in market;
    }
  }

  /** The mirror of `symbol` after a whole stream. */
  ghost predicate MirrorAfter(us: seq<Update>, symbol: nat, m: Mirror)
    decreases |us|
  {
    if us == [] then m == NO_MIRROR
    else
      var n := |us| - 1;
      if us[n].symbol != symbol then MirrorAfter(us[..n], symbol, m)
      else exists before ::
             && MirrorAfter(us[..n], symbol, before) && MirrorOk(before) && Acceptable(before, us[n])
             && m == ApplyMirror(before, us[n])
  }

  /** A stream determines the mirror. */
  lemma {:induction false} MirrorIsDetermined(us: seq<Update>, symbol: nat, m1: Mirror, m2: Mirror)
    requires MirrorAfter(us, symbol, m1) && MirrorAfter(us, symbol, m2)
    ensures m1 == m2
    decreases |us|
  {
    hide MirrorOk, Acceptable, ApplyMirror;
    if us == [] {
    } else {
      var n := |us| - 1;
      if us[n].symbol != symbol {
        MirrorIsDetermined(us[..n], symbol, m1, m2);
      } else {
        var b1 :| MirrorAfter(us[..n], symbol, b1) && MirrorOk(b1) && Acceptable(b1, us[n])
            && m1 == ApplyMirror(b1, us[n]);
        var b2 :| MirrorAfter(us[..n], symbol, b2) && MirrorOk(b2) && Acceptable(b2, us[n])
            && m2 == ApplyMirror(b2, us[n]);
        MirrorIsDetermined(us[..n], symbol, b1, b2);
      }
    }
  }

  lemma {:induction false} SoundPrefix(m: Market, us: seq<Update>, n: nat)
    requires Sound(m, us) && n <= |us|
    ensures Uncrossed(Replay(m, us[..n]))
    ensures n < |us| ==> Fits(Replay(m, us[..n]), us[n]) || us[n].kind == CLEAR
    ensures Sound(m, us[..n])
    decreases n
  {
    if n == 0 {
    } else {
      SoundPrefix(Apply(m, us[0]), us[1..], n - 1);
      assert us[..n][1..] == us[1..][..n - 1];
    }
  }

  /** Any sound stream has a mirror of each symbol, and it shows what the stream amounts to. */
  lemma {:induction false} MirrorFollowsStream(us: seq<Update>, symbol: nat) returns (m: Mirror)
    requires Sound(map[], us)
    ensures MirrorAfter(us, symbol, m) && MirrorOk(m) && ShowsMarket(m, Replay(map[], us), symbol)
    decreases |us|
  {
    hide MirrorOk, Acceptable, ShowsMarket, Sound, Fits, Uncrossed;
    if us == [] {
      m := NO_MIRROR;
      EmptyMirrorOk();
      NothingShown(symbol);
    } else {
      var n := |us| - 1;
      SoundPrefix(map[], us, n);
      SoundPrefix(map[], us, n + 1);
      assert us[..n + 1] == us && us == us[..n] + [us[n]];
      ReplayOne(map[], us[..n], us[n]);
      var before := MirrorFollowsStream(us[..n], symbol);
      var market := Replay(map[], us[..n]);
      if us[n].symbol == symbol {
        FollowsMarket(before, market, symbol, us[n]);
        m := ApplyMirror(before, us[n]);
      } else {
        OtherSymbolIgnored(before, market, symbol, us[n]);
        m := before;
      }
    }
  }

  lemma NothingShown(symbol: nat)
    ensures ShowsMarket(NO_MIRROR, map[], symbol)
    ensures Replay(map[], []) == map[]
  {
  }

  // ----- best bid and offer -----

  lemma {:induction false} SumFrame(entries: map<nat, Entry>, entries': map<nat, Entry>, ids: seq<nat>)
    requires forall j :: 0 <= j < |ids| ==>
               (ids[j] in entries <==> ids[j] in entries')
               && (ids[j] in entries ==> entries[ids[j]].quantity == entries'[ids[j]].quantity)
    ensures SumQuantity(entries, ids) == SumQuantity(entries', ids)
  {
    if ids == [] {
    } else {
      SumFrame(entries, entries', ids[..|ids| - 1]);
    }
  }

  /** When the test made beforehand says that a side need not be refreshed, its best price
      and the total at that price did not change. */
  lemma UntouchedTop(m: Mirror, u: Update, side: Direction)
    requires MirrorOk(m) && Acceptable(m, u) && !Touches(m, u, side)
    ensures Top(ApplyMirror(m, u), side) == Top(m, side)
  {
    if u.kind in {ADD, MODIFY, CANCEL} {
      var m', prices := ApplyMirror(m, u), PricesOf(m, side);
      SameBest(m, u, side);
      if prices != [] {
        SumFrame(m.entries, m'.entries, m.queues[prices[0]]);
      }
    }
  }

  /** An update elsewhere leaves the best level of a side as it was. */
  lemma SameBest(m: Mirror, u: Update, side: Direction)
    requires MirrorOk(m) && Acceptable(m, u) && !Touches(m, u, side) && u.kind in {ADD, MODIFY, CANCEL}
    ensures var m', prices := ApplyMirror(m, u), PricesOf(m, side);
            if prices == [] then PricesOf(m', side) == []
            else
              && PricesOf(m', side) != [] && PricesOf(m', side)[0] == prices[0]
              && prices[0] in m.queues && prices[0] in m'.queues && m'.queues[prices[0]] == m.queues[prices[0]]
              && forall j :: 0 <= j < |m.queues[prices[0]]| ==>
                   var id := m.queues[prices[0]][j];
                   id in m.entries && id in m'.entries && m'.entries[id] == m.entries[id]
  {
    hide MirrorOk, Rank, InsertPrice, Without, IndexOf, Touches;
    var prices := PricesOf(m, side);
    if u.kind != ADD {
      OrderPlace(m, u.orderId);
    }
    SameHead(m, u, side);
    if prices != [] {
      ListedPrice(m, side, prices[0]);
      forall j | 0 <= j < |m.queues[prices[0]]|
        ensures var id := m.queues[prices[0]][j];
                id in m.entries && id != u.orderId
      {
        assert InQueue(m, prices[0], m.queues[prices[0]][j]);
      }
    }
  }

  lemma ListedPrice(m: Mirror, side: Direction, p: int)
    requires MirrorOk(m) && p in PricesOf(m, side)
    ensures p in m.queues && QueueOk(m, p)
  {
    hide QueueOk, EntryQueued, SortedPrices;
    if side == BUY {
      assert p in m.bids;
    } else {
      assert p in m.asks;
    }
  }

  lemma SameHead(m: Mirror, u: Update, side: Direction)
    requires MirrorOk(m) && Acceptable(m, u) && !Touches(m, u, side) && u.kind in {ADD, MODIFY, CANCEL}
    ensures var prices, prices' := PricesOf(m, side), PricesOf(ApplyMirror(m, u), side);
            && (prices == [] ==> prices' == [])
            && (prices != [] ==> u.price != prices[0] && prices' != [] && prices'[0] == prices[0])
  {
    HeadElsewhere(m, u, side);
    if u.kind == ADD {
      hide Rank, IndexOf, InsertPrice, MirrorOk;
      if u.side == side && u.price !in m.queues {
        HeadInserted(side, PricesOf(m, side), u.price);
      }
    } else if u.kind == CANCEL {
      OrderPlace(m, u.orderId);
      hide Rank, IndexOf, Without, MirrorOk;
      if u.side == side {
        HeadRemoved(side, PricesOf(m, side), u.price);
      }
    } else {
      hide MirrorOk;
    }
  }

  /** A price that the test lets pass is behind the best of the side, or not of the side. */
  lemma HeadElsewhere(m: Mirror, u: Update, side: Direction)
    requires MirrorOk(m) && Acceptable(m, u) && !Touches(m, u, side) && u.kind in {ADD, MODIFY, CANCEL}
    ensures u.side == side ==> PricesOf(m, side) != [] && Better(side, PricesOf(m, side)[0], u.price)
    ensures PricesOf(m, side) != [] ==> u.price != PricesOf(m, side)[0]
  {
    if u.kind != ADD {
      OrderPlace(m, u.orderId);
    }
    var prices := PricesOf(m, side);
    if prices != [] {
      ListedPrice(m, side, prices[0]);
    }
    hide QueueOk, EntryQueued, SortedPrices, Rank;
  }

  lemma HeadInserted(side: Direction, prices: seq<int>, p: int)
    requires prices != [] && Better(side, prices[0], p)
    ensures InsertPrice(side, prices, p) != [] && InsertPrice(side, prices, p)[0] == prices[0]
  {
  }

  lemma HeadRemoved(side: Direction, prices: seq<int>, p: int)
    requires prices != [] && Better(side, prices[0], p) && Rank(side, prices, p) < |prices|
    ensures var prices' := Without(prices, Rank(side, prices, p)); prices' != [] && prices'[0] == prices[0]
  {
  }
}
