/** How the pools, rings and index arrays of a `MarketOrderBook` hold a mirror. */
module MirrorStores {
  import opened Types
  import opened MemPools
  import opened Rings
  import opened Markets
  import opened MirrorSpecs
  import opened MirrorFacts

  datatype MarketOrder = MarketOrder(orderId: nat, entry: Entry)

  datatype OrdersAtPrice = OrdersAtPrice(side: Direction, price: int, firstOrder: int)

  type OrderNodes = Store<MarketOrder>
  type LevelNodes = Store<OrdersAtPrice>

  // ----- orders -----

  ghost predicate OrderAt(os: OrderNodes, oid: seq<int>, id: nat, e: Entry) {
    Keyed(os, oid, id) && os[oid[id]].value.value == MarketOrder(id, e)
  }

  /** The id index leads to the node of every live order and nowhere else, and the orders
      at each price form a ring in arrival order. */
  ghost predicate OrdersOk(os: OrderNodes, oid: seq<int>, entries: map<nat, Entry>, queues: map<int, seq<nat>>) {
    && |oid| == MAX_ORDER_IDS
    && (forall id :: id in entries ==> OrderAt(os, oid, id, entries[id]))
    && (forall id: nat :: id < |oid| && id !in entries ==> oid[id] == NULL)
    && (forall p :: p in queues ==> Ring(os, oid, queues[p]))
  }

  /** A node that no index entry leads to. */
  ghost predicate Loose(oid: seq<int>, s: int) {
    forall id: nat :: id < |oid| ==> oid[id] != s
  }

  lemma QueuedEntry(m: Mirror, p: int, id: nat)
    requires MirrorOk(m) && p in m.queues && id in m.queues[p]
    ensures id in m.entries && m.entries[id].price == p && 1 <= id < MAX_ORDER_IDS
  {
    assert QueueOk(m, p);
    var j :| 0 <= j < |m.queues[p]| && m.queues[p][j] == id;
    assert InQueue(m, p, id);
  }

  /** Nodes of orders at different prices differ, so a change at one price leaves the rings
      at other prices alone. */
  lemma OtherRing(os: OrderNodes, os': OrderNodes, oid: seq<int>, oid': seq<int>, m: Mirror, p: int, x: int)
    requires MirrorOk(m) && OrdersOk(os, oid, m.entries, m.queues) && x in m.queues && x != p
    requires |os'| == |os| && |oid'| == |oid|
    requires forall id :: id in m.entries && m.entries[id].price != p ==>
               oid'[id] == oid[id] && SameLinks(os, os', oid[id])
    ensures Ring(os', oid', m.queues[x])
  {
    var keys: seq<int> := m.queues[x];
    forall i | 0 <= i < |keys|
      ensures oid'[keys[i]] == oid[keys[i]] && SameLinks(os, os', oid[keys[i]])
    {
      QueuedEntry(m, x, m.queues[x][i]);
    }
    hide Ring, OrderAt, MirrorOk;
    RingFrame(os, os', oid, oid', keys);
  }

  /** Two live orders have different nodes. */
  lemma DistinctNodes(os: OrderNodes, oid: seq<int>, entries: map<nat, Entry>, queues: map<int, seq<nat>>,
                      a: nat, b: nat)
    requires OrdersOk(os, oid, entries, queues) && a in entries && b in entries && a != b
    ensures oid[a] != oid[b]
  {
    assert OrderAt(os, oid, a, entries[a]) && OrderAt(os, oid, b, entries[b]);
  }

  /** A new node spliced in after the last order at its price queues the order there. */
  lemma AppendOrder(os: OrderNodes, os': OrderNodes, oid: seq<int>, oid': seq<int>, m: Mirror, id: nat,
                    e: Entry, s: int)
    requires MirrorOk(m) && OrdersOk(os, oid, m.entries, m.queues)
    requires e.price in m.queues && id < MAX_ORDER_IDS && id !in m.entries
    requires Loose(oid, s) && oid' == oid[id := s]
    requires Inserted(os, os', oid, m.queues[e.price], |m.queues[e.price]|, s)
    requires IsNode(os, s) && os[s].value.value == MarketOrder(id, e)
    ensures OrdersOk(os', oid', m.entries[id := e], m.queues[e.price := m.queues[e.price] + [id]])
  {
    AppendOthers(os, os', oid, oid', m, id, e.price, s);
    AppendRing(os, os', oid, oid', m, id, e.price, s);
    hide Ring, MirrorOk;
    assert OrderAt(os', oid', id, e);
    hide Inserted, OrderAt;
  }

  lemma AppendRing(os: OrderNodes, os': OrderNodes, oid: seq<int>, oid': seq<int>, m: Mirror, id: nat, p: int, s: int)
    requires MirrorOk(m) && OrdersOk(os, oid, m.entries, m.queues)
    requires p in m.queues && id < MAX_ORDER_IDS && id !in m.entries
    requires Loose(oid, s) && oid' == oid[id := s]
    requires Inserted(os, os', oid, m.queues[p], |m.queues[p]|, s)
    ensures Ring(os', oid', m.queues[p] + [id])
  {
    var q: seq<int> := m.queues[p];
    forall i | 0 <= i < |q|
      ensures q[i] != id && oid[q[i]] != s
    {
      QueuedEntry(m, p, m.queues[p][i]);
    }
    hide Ring, Inserted, MirrorOk, OrderAt;
    SplicedRing(os, os', oid, oid', q, q + [id], |q|, id, s);
    assert m.queues[p] + [id] == q + [id];
  }

  lemma SplicedOther<V>(os: Store<V>, os': Store<V>, s: int, u: int, t: int, x: int)
    requires Spliced(os, os', s, u, t) && IsNode(os, x)
    ensures IsNode(os', x) && os'[x].value.value == os[x].value.value
    ensures x !in {s, u, t} ==> SameLinks(os, os', x)
  {
  }

  lemma AppendOthers(os: OrderNodes, os': OrderNodes, oid: seq<int>, oid': seq<int>, m: Mirror, id: nat, p: int, s: int)
    requires MirrorOk(m) && OrdersOk(os, oid, m.entries, m.queues)
    requires p in m.queues && id < MAX_ORDER_IDS && id !in m.entries
    requires Loose(oid, s) && oid' == oid[id := s]
    requires Inserted(os, os', oid, m.queues[p], |m.queues[p]|, s)
    ensures forall k :: k in m.entries ==> OrderAt(os', oid', k, m.entries[k])
    ensures forall x :: x in m.queues && x != p ==> Ring(os', oid', m.queues[x])
  {
    var q := m.queues[p];
    var u, t := q[|q| - 1], q[0];
    QueuedEntry(m, p, t);
    QueuedEntry(m, p, u);
    assert |os'| == |os|;
    hide Ring, Spliced;
    forall k | k in m.entries
      ensures OrderAt(os', oid', k, m.entries[k])
      ensures m.entries[k].price != p ==> oid'[k] == oid[k] && SameLinks(os, os', oid[k])
    {
      assert OrderAt(os, oid, k, m.entries[k]);
      SplicedOther(os, os', s, oid[u], oid[t], oid[k]);
      if m.entries[k].price != p {
        DistinctNodes(os, oid, m.entries, m.queues, k, t);
        DistinctNodes(os, oid, m.entries, m.queues, k, u);
      }
    }
    hide MirrorOk, OrderAt;
    forall x | x in m.queues && x != p
      ensures Ring(os', oid', m.queues[x])
    {
      OtherRing(os, os', oid, oid', m, p, x);
    }
  }

  /** A node linked to itself starts the queue of a new price. */
  lemma StartOrder(os: OrderNodes, os': OrderNodes, oid: seq<int>, oid': seq<int>, m: Mirror, id: nat, e: Entry, s: int)
    requires MirrorOk(m) && OrdersOk(os, oid, m.entries, m.queues)
    requires e.price !in m.queues && id < MAX_ORDER_IDS && id !in m.entries
    requires 0 <= s < |os| && Loose(oid, s) && oid' == oid[id := s]
    requires os' == os[s := Live(Node(MarketOrder(id, e), s, s))]
    ensures OrdersOk(os', oid', m.entries[id := e], m.queues[e.price := [id]])
  {
    forall k | k in m.entries
      ensures OrderAt(os', oid', k, m.entries[k]) && oid'[k] == oid[k] && SameLinks(os, os', oid[k])
    {
      assert OrderAt(os, oid, k, m.entries[k]);
    }
    SingleRing(os', oid', id);
    hide Ring, Linked;
    forall x | x in m.queues
      ensures Ring(os', oid', m.queues[x])
    {
      OtherRing(os, os', oid, oid', m, e.price, x);
    }
  }

  /** A node taken out of its ring and freed takes the order out of its queue. */
  lemma UnlinkOrder(os: OrderNodes, os': OrderNodes, oid: seq<int>, oid': seq<int>, m: Mirror, id: nat, k: nat)
    requires MirrorOk(m) && OrdersOk(os, oid, m.entries, m.queues) && id in m.entries
    requires id < |oid| && Bypassed(os, os', oid[id]) && oid' == oid[id := NULL]
    requires var p := m.entries[id].price;
             p in m.queues && k < |m.queues[p]| && m.queues[p][k] == id
    ensures var p := m.entries[id].price;
            OrdersOk(os', oid', m.entries - {id}, m.queues[p := DropAt(m.queues[p], k)])
    ensures var p := m.entries[id].price;
            |m.queues[p]| == 1 ==> OrdersOk(os', oid', m.entries - {id}, m.queues - {p})
  {
    var p := m.entries[id].price;
    var q: seq<int> := m.queues[p];
    assert QueueOk(m, p);
    BypassedRing(os, os', oid, oid', q, DropAt(q, k), k);
    hide QueueOk;
    UnlinkOthers(os, os', oid, oid', m, id, k);
    hide Ring, Bypassed, MirrorOk;
    assert forall x :: x in m.entries && x != id ==> OrderAt(os', oid', x, m.entries[x]);
    assert DropAt(q, k) == DropAt(m.queues[p], k);
  }

  lemma UnlinkOthers(os: OrderNodes, os': OrderNodes, oid: seq<int>, oid': seq<int>, m: Mirror, id: nat, k: nat)
    requires MirrorOk(m) && OrdersOk(os, oid, m.entries, m.queues) && id in m.entries
    requires id < |oid| && Bypassed(os, os', oid[id]) && oid' == oid[id := NULL]
    requires var p := m.entries[id].price;
             p in m.queues && k < |m.queues[p]| && m.queues[p][k] == id
    ensures forall x :: x in m.entries && x != id ==> OrderAt(os', oid', x, m.entries[x])
    ensures forall x :: x in m.queues && x != m.entries[id].price ==> Ring(os', oid', m.queues[x])
  {
    var p := m.entries[id].price;
    var q := m.queues[p];
    var n := |q|;
    assert Ring(os, oid, q) && Rings.Linked(os, oid, q, k);
    QueuedEntry(m, p, q[Prev(k, n)]);
    QueuedEntry(m, p, q[Next(k, n)]);
    hide Ring, Rings.Linked;
    forall x | x in m.entries && x != id
      ensures OrderAt(os', oid', x, m.entries[x])
      ensures m.entries[x].price != p ==> oid'[x] == oid[x] && SameLinks(os, os', oid[x])
    {
      assert OrderAt(os, oid, x, m.entries[x]);
      DistinctNodes(os, oid, m.entries, m.queues, x, id);
      if m.entries[x].price != p {
        DistinctNodes(os, oid, m.entries, m.queues, x, q[Prev(k, n)]);
        DistinctNodes(os, oid, m.entries, m.queues, x, q[Next(k, n)]);
      }
    }
    hide Bypassed;
    forall x | x in m.queues && x != p
      ensures Ring(os', oid', m.queues[x])
    {
      OtherRing(os, os', oid, oid', m, p, x);
    }
  }

  /** Overwriting a quantity in place leaves every ring as it was. */
  lemma ReviseOrder(os: OrderNodes, os': OrderNodes, oid: seq<int>, m: Mirror, id: nat, e: Entry)
    requires MirrorOk(m) && OrdersOk(os, oid, m.entries, m.queues) && id in m.entries && Keyed(os, oid, id)
    requires os' == os[oid[id] := Live(os[oid[id]].value.(value := MarketOrder(id, e)))]
    ensures OrdersOk(os', oid, m.entries[id := e], m.queues)
  {
    forall k | k in m.entries
      ensures SameLinks(os, os', oid[k])
      ensures OrderAt(os', oid, k, m.entries[id := e][k])
    {
      assert OrderAt(os, oid, k, m.entries[k]);
      if k != id {
        DistinctNodes(os, oid, m.entries, m.queues, k, id);
      }
    }
    hide Ring;
    forall x | x in m.queues
      ensures Ring(os', oid, m.queues[x])
    {
      forall i | 0 <= i < |m.queues[x]|
        ensures SameLinks(os, os', oid[m.queues[x][i]])
      {
        QueuedEntry(m, x, m.queues[x][i]);
      }
      RingFrame(os, os', oid, oid, m.queues[x]);
    }
  }

  // ----- levels -----

  /** The node of the first order at each price. */
  ghost function Firsts(oid: seq<int>, queues: map<int, seq<nat>>): map<int, int> {
    map p | p in queues && queues[p] != [] && queues[p][0] < |oid| :: oid[queues[p][0]]
  }

  function SideAt(bids: seq<int>, p: int): Direction {
    if p in bids then BUY else SELL
  }

  ghost predicate LevelAt(ls: LevelNodes, idx: seq<int>, p: int, side: Direction, first: int) {
    Keyed(ls, idx, p) && ls[idx[p]].value.value == OrdersAtPrice(side, p, first)
  }

  /** The price index leads to the node of every level and nowhere else, and the levels of
      each side form a ring from best to worst. */
  ghost predicate LevelsOk(ls: LevelNodes, idx: seq<int>, bids: seq<int>, asks: seq<int>, firsts: map<int, int>) {
    && |idx| == MAX_PRICE_LEVELS
    && (forall p :: p in firsts ==> LevelAt(ls, idx, p, SideAt(bids, p), firsts[p]))
    && (forall p :: 0 <= p < |idx| && p !in firsts ==> idx[p] == NULL)
    && (forall p :: p in bids || p in asks <==> p in firsts) && (forall p :: p in bids ==> p !in asks)
    && SortedPrices(BUY, bids) && SortedPrices(SELL, asks)
    && Ring(ls, idx, bids) && Ring(ls, idx, asks)
  }

  ghost function Head(idx: seq<int>, prices: seq<int>): int {
    if prices == [] || !(0 <= prices[0] < |idx|) then NULL else idx[prices[0]]
  }

  lemma DistinctLevels(ls: LevelNodes, idx: seq<int>, bids: seq<int>, asks: seq<int>, firsts: map<int, int>,
                       a: int, b: int)
    requires LevelsOk(ls, idx, bids, asks, firsts) && a in firsts && b in firsts && a != b
    ensures idx[a] != idx[b]
  {
    assert LevelAt(ls, idx, a, SideAt(bids, a), firsts[a]) && LevelAt(ls, idx, b, SideAt(bids, b), firsts[b]);
  }

  /** The levels of the other side keep their ring when only nodes of this side change. */
  lemma OtherSide(ls: LevelNodes, ls': LevelNodes, idx: seq<int>, idx': seq<int>, prices: seq<int>)
    requires Ring(ls, idx, prices) && |ls'| == |ls| && |idx'| == |idx|
    requires forall p :: p in prices ==> idx'[p] == idx[p] && SameLinks(ls, ls', idx[p])
    ensures Ring(ls', idx', prices)
  {
    hide Ring;
    RingFrame(ls, ls', idx, idx', prices);
  }

  function OnSide(side: Direction, bids: seq<int>, asks: seq<int>): seq<int> {
    if side == BUY then bids else asks
  }

  /** The parts of `LevelsOk` again, with one side's prices replaced by `prices'`. */
  lemma ReplaceSide(ls: LevelNodes, idx: seq<int>, bids: seq<int>, asks: seq<int>, firsts: map<int, int>,
                    ls': LevelNodes, idx': seq<int>, prices': seq<int>, firsts': map<int, int>, side: Direction)
    requires LevelsOk(ls, idx, bids, asks, firsts) && |idx'| == |idx| && |ls'| == |ls|
    requires SortedPrices(side, prices') && Ring(ls', idx', prices')
    requires forall p :: p in firsts' <==> p in prices' || p in OnSide(Opposite(side), bids, asks)
    requires forall p :: p in prices' ==> p !in OnSide(Opposite(side), bids, asks)
    requires forall p :: p in prices' ==> LevelAt(ls', idx', p, side, firsts'[p])
    requires forall p :: p in OnSide(Opposite(side), bids, asks) ==>
               && idx'[p] == idx[p] && SameLinks(ls, ls', idx[p])
               && LevelAt(ls', idx', p, Opposite(side), firsts'[p])
    requires forall p :: 0 <= p < |idx'| && p !in firsts' ==> idx'[p] == NULL
    ensures side == BUY ==> LevelsOk(ls', idx', prices', asks, firsts')
    ensures side == SELL ==> LevelsOk(ls', idx', bids, prices', firsts')
  {
    OtherSide(ls, ls', idx, idx', OnSide(Opposite(side), bids, asks));
    hide Ring, LevelAt, SortedPrices, SameLinks;
  }

  lemma LevelBySide(ls: LevelNodes, idx: seq<int>, bids: seq<int>, asks: seq<int>, firsts: map<int, int>,
                    side: Direction, p: int)
    requires LevelsOk(ls, idx, bids, asks, firsts) && p in OnSide(side, bids, asks)
    ensures p in firsts && LevelAt(ls, idx, p, side, firsts[p])
  {
    hide Ring, SortedPrices, LevelAt;
  }

  /** Splicing a level's node in at its rank puts the level in its place. */
  lemma InsertLevel(ls: LevelNodes, ls': LevelNodes, idx: seq<int>, idx': seq<int>, bids: seq<int>, asks: seq<int>,
                    firsts: map<int, int>, side: Direction, p: int, first: int, s: int)
    requires LevelsOk(ls, idx, bids, asks, firsts) && p !in firsts && 0 <= p < |idx|
    requires Loose(idx, s) && idx' == idx[p := s]
    requires var prices := OnSide(side, bids, asks); Inserted(ls, ls', idx, prices, Rank(side, prices, p), s)
    requires IsNode(ls, s) && ls[s].value.value == OrdersAtPrice(side, p, first)
    ensures var prices' := InsertPrice(side, OnSide(side, bids, asks), p);
            && (side == BUY ==> LevelsOk(ls', idx', prices', asks, firsts[p := first]))
            && (side == SELL ==> LevelsOk(ls', idx', bids, prices', firsts[p := first]))
  {
    hide Ring, Rank, SortedPrices, LevelsOk, LevelAt, Inserted, Loose, InsertPrice;
    var prices := OnSide(side, bids, asks);
    NotOnRing(ls, idx, bids, asks, firsts, side, s);
    InsertPriceOk(side, prices, p);
    InsertRing(ls, ls', idx, idx', prices, side, p, s);
    InsertLevels(ls, ls', idx, idx', bids, asks, firsts, side, p, first, s);
    ReplaceSide(ls, idx, bids, asks, firsts, ls', idx', InsertPrice(side, prices, p), firsts[p := first], side);
  }

  /** The levels' own data after the insertion. */
  lemma InsertLevels(ls: LevelNodes, ls': LevelNodes, idx: seq<int>, idx': seq<int>, bids: seq<int>, asks: seq<int>,
                     firsts: map<int, int>, side: Direction, p: int, first: int, s: int)
    requires LevelsOk(ls, idx, bids, asks, firsts) && p !in firsts && 0 <= p < |idx|
    requires Loose(idx, s) && idx' == idx[p := s]
    requires var prices := OnSide(side, bids, asks); Inserted(ls, ls', idx, prices, Rank(side, prices, p), s)
    requires IsNode(ls, s) && ls[s].value.value == OrdersAtPrice(side, p, first)
    ensures |ls'| == |ls| && LevelAt(ls', idx', p, side, first)
    ensures forall x :: x in firsts ==> LevelAt(ls', idx', x, SideAt(bids, x), firsts[x])
    ensures forall x :: x in firsts && x !in OnSide(side, bids, asks) ==>
              0 <= x < |idx| && idx'[x] == idx[x] && SameLinks(ls, ls', idx[x])
  {
    hide Ring, Rank, SortedPrices, LevelsOk;
    var prices := OnSide(side, bids, asks);
    var k := Rank(side, prices, p);
    var u, t := prices[if k == 0 then |prices| - 1 else k - 1], prices[if k == |prices| then 0 else k];
    assert LevelAt(ls', idx', p, side, first);
    hide LevelAt, Spliced;
    NotOnRing(ls, idx, bids, asks, firsts, side, s);
    forall x | x in firsts
      ensures LevelAt(ls', idx', x, SideAt(bids, x), firsts[x])
      ensures x !in prices ==> idx'[x] == idx[x] && SameLinks(ls, ls', idx[x])
    {
      LevelSpliced(ls, ls', idx, idx', bids, asks, firsts, p, x, s, u, t);
    }
  }

  lemma InsertRing(ls: LevelNodes, ls': LevelNodes, idx: seq<int>, idx': seq<int>, prices: seq<int>,
                   side: Direction, p: int, s: int)
    requires Ring(ls, idx, prices) && 0 <= p < |idx| && p !in prices && idx' == idx[p := s]
    requires forall x :: x in prices ==> 0 <= x < |idx| && idx[x] != s
    requires Inserted(ls, ls', idx, prices, Rank(side, prices, p), s)
    ensures Ring(ls', idx', InsertPrice(side, prices, p))
  {
    hide Ring, Rank, Inserted;
    SplicedRing(ls, ls', idx, idx', prices, InsertPrice(side, prices, p), Rank(side, prices, p), p, s);
  }

  lemma NotOnRing(ls: LevelNodes, idx: seq<int>, bids: seq<int>, asks: seq<int>, firsts: map<int, int>,
                  side: Direction, s: int)
    requires LevelsOk(ls, idx, bids, asks, firsts) && Loose(idx, s)
    ensures forall p :: p in firsts ==> 0 <= p < |idx| && idx[p] != s
    ensures forall p :: p in OnSide(side, bids, asks) ==> p in firsts
    ensures forall p :: p in firsts <==> p in bids || p in asks
    ensures forall p :: p in bids ==> p !in asks
    ensures SortedPrices(BUY, bids) && SortedPrices(SELL, asks) && Ring(ls, idx, bids) && Ring(ls, idx, asks)
    ensures forall p :: 0 <= p < |idx| && p !in firsts ==> idx[p] == NULL
  {
    hide Ring, SortedPrices;
    forall p | p in firsts
      ensures 0 <= p < |idx| && idx[p] != s
    {
      assert LevelAt(ls, idx, p, SideAt(bids, p), firsts[p]);
    }
  }

  lemma LevelSpliced(ls: LevelNodes, ls': LevelNodes, idx: seq<int>, idx': seq<int>, bids: seq<int>, asks: seq<int>,
                     firsts: map<int, int>, p: int, x: int, s: int, u: int, t: int)
    requires LevelsOk(ls, idx, bids, asks, firsts) && x in firsts && u in firsts && t in firsts
    requires p !in firsts && 0 <= p < |idx| && Loose(idx, s) && idx' == idx[p := s]
    requires 0 <= u < |idx| && 0 <= t < |idx| && Spliced(ls, ls', s, idx[u], idx[t])
    ensures LevelAt(ls', idx', x, SideAt(bids, x), firsts[x])
    ensures x != u && x != t ==> idx'[x] == idx[x] && SameLinks(ls, ls', idx[x])
  {
    hide Ring, SortedPrices;
    assert LevelAt(ls, idx, x, SideAt(bids, x), firsts[x]);
    SplicedOther(ls, ls', s, idx[u], idx[t], idx[x]);
    if x != u && x != t {
      DistinctLevels(ls, idx, bids, asks, firsts, x, u);
      DistinctLevels(ls, idx, bids, asks, firsts, x, t);
    }
  }

  /** A node linked to itself is the first level of an empty side. */
  lemma StartLevel(ls: LevelNodes, ls': LevelNodes, idx: seq<int>, idx': seq<int>, bids: seq<int>, asks: seq<int>,
                   firsts: map<int, int>, side: Direction, p: int, first: int, s: int)
    requires LevelsOk(ls, idx, bids, asks, firsts) && p !in firsts && 0 <= p < |idx|
    requires Loose(idx, s) && idx' == idx[p := s] && OnSide(side, bids, asks) == []
    requires 0 <= s < |ls| && ls' == ls[s := Live(Node(OrdersAtPrice(side, p, first), s, s))]
    ensures side == BUY ==> LevelsOk(ls', idx', [p], asks, firsts[p := first])
    ensures side == SELL ==> LevelsOk(ls', idx', bids, [p], firsts[p := first])
  {
    SingleRing(ls', idx', p);
    hide Ring;
    forall x | x in firsts
      ensures LevelAt(ls', idx', x, SideAt(bids, x), firsts[x]) && idx'[x] == idx[x] && SameLinks(ls, ls', idx[x])
    {
      assert LevelAt(ls, idx, x, SideAt(bids, x), firsts[x]);
    }
    ReplaceSide(ls, idx, bids, asks, firsts, ls', idx', [p], firsts[p := first], side);
  }

  /** Bypassing a level's node takes the level off its side. */
  lemma RemoveLevel(ls: LevelNodes, ls': LevelNodes, idx: seq<int>, idx': seq<int>, bids: seq<int>, asks: seq<int>,
                    firsts: map<int, int>, side: Direction, p: int)
    requires LevelsOk(ls, idx, bids, asks, firsts) && p in OnSide(side, bids, asks)
    requires 0 <= p < |idx| && idx' == idx[p := NULL] && Bypassed(ls, ls', idx[p])
    ensures var prices := OnSide(side, bids, asks);
            var k := Rank(side, prices, p);
            && k < |prices|
            && (side == BUY ==> LevelsOk(ls', idx', Without(prices, k), asks, firsts - {p}))
            && (side == SELL ==> LevelsOk(ls', idx', bids, Without(prices, k), firsts - {p}))
  {
    var prices := OnSide(side, bids, asks);
    var k := Rank(side, prices, p);
    RankSplits(side, prices, p);
    hide Rank, Ring;
    var prices' := Without(prices, k);
    RemovePriceOk(side, prices, p);
    SortedDistinct(side, prices);
    hide SortedPrices, LevelAt;
    BypassedRing(ls, ls', idx, idx', prices, prices', k);
    var u, t := prices[Prev(k, |prices|)], prices[Next(k, |prices|)];
    assert prices[k] == p && Rings.Linked(ls, idx, prices, k) by {
      RingAt(ls, idx, prices, k);
    }
    assert |ls'| == |ls|;
    hide Without, Bypassed;
    forall x | x in firsts && x != p
      ensures LevelAt(ls', idx', x, SideAt(bids, x), firsts[x])
      ensures x !in prices ==> idx'[x] == idx[x] && SameLinks(ls, ls', idx[x])
    {
      LevelBypassed(ls, ls', idx, idx', bids, asks, firsts, p, x, u, t);
    }
    ReplaceSide(ls, idx, bids, asks, firsts, ls', idx', prices', firsts - {p}, side);
  }

  lemma RingAt<V>(ls: Store<V>, idx: seq<int>, keys: seq<int>, k: nat)
    requires Ring(ls, idx, keys) && k < |keys|
    ensures AllKeyed(ls, idx, keys) && Keyed(ls, idx, keys[k]) && Rings.Linked(ls, idx, keys, k)
  {
  }

  lemma SortedDistinct(side: Direction, prices: seq<int>)
    requires SortedPrices(side, prices)
    ensures forall i, j :: 0 <= i < j < |prices| ==> prices[i] != prices[j]
  {
    assert forall i, j :: 0 <= i < j < |prices| ==> Better(side, prices[i], prices[j]);
  }

  lemma LevelBypassed(ls: LevelNodes, ls': LevelNodes, idx: seq<int>, idx': seq<int>, bids: seq<int>, asks: seq<int>,
                      firsts: map<int, int>, p: int, x: int, u: int, t: int)
    requires LevelsOk(ls, idx, bids, asks, firsts) && x in firsts && x != p && p in firsts
    requires 0 <= p < |idx| && idx' == idx[p := NULL] && Bypassed(ls, ls', idx[p])
    requires u in firsts && t in firsts && 0 <= u < |idx| && 0 <= t < |idx| && Links(ls, idx[p], idx[u], idx[t])
    ensures LevelAt(ls', idx', x, SideAt(bids, x), firsts[x])
    ensures x != u && x != t ==> idx'[x] == idx[x] && SameLinks(ls, ls', idx[x])
  {
    hide Ring, SortedPrices;
    assert LevelAt(ls, idx, x, SideAt(bids, x), firsts[x]);
    DistinctLevels(ls, idx, bids, asks, firsts, x, p);
    if x != u && x != t {
      DistinctLevels(ls, idx, bids, asks, firsts, x, u);
      DistinctLevels(ls, idx, bids, asks, firsts, x, t);
    }
  }

  /** A level may get another first order; the rings do not notice. */
  lemma ReviseLevel(ls: LevelNodes, ls': LevelNodes, idx: seq<int>, bids: seq<int>, asks: seq<int>,
                    firsts: map<int, int>, p: int, first: int)
    requires LevelsOk(ls, idx, bids, asks, firsts) && p in firsts && Keyed(ls, idx, p)
    requires ls' == ls[idx[p] := Live(ls[idx[p]].value.(value := OrdersAtPrice(SideAt(bids, p), p, first)))]
    ensures LevelsOk(ls', idx, bids, asks, firsts[p := first])
  {
    forall x | x in firsts
      ensures LevelAt(ls', idx, x, SideAt(bids, x), firsts[p := first][x]) && SameLinks(ls, ls', idx[x])
    {
      assert LevelAt(ls, idx, x, SideAt(bids, x), firsts[x]);
      if x != p {
        DistinctLevels(ls, idx, bids, asks, firsts, x, p);
      }
    }
    hide Ring, LevelAt;
    OtherSide(ls, ls', idx, idx, bids);
    OtherSide(ls, ls', idx, idx, asks);
  }

  // ----- fresh slots -----

  /** Handing out a slot that held no live node disturbs nothing, and no index leads to it. */
  lemma FreshOrder(os: OrderNodes, oid: seq<int>, entries: map<nat, Entry>, queues: map<int, seq<nat>>,
                   s: int, b: Block<Node<MarketOrder>>)
    requires OrdersOk(os, oid, entries, queues) && 0 <= s < |os| && !os[s].Live?
    ensures OrdersOk(os[s := b], oid, entries, queues) && Loose(oid, s)
  {
    var os' := os[s := b];
    forall id: nat | id < |oid|
      ensures oid[id] != s && (id in entries ==> OrderAt(os', oid, id, entries[id]))
    {
      if id in entries {
        assert OrderAt(os, oid, id, entries[id]);
      }
    }
    assert forall id :: id in entries ==> OrderAt(os, oid, id, entries[id]) && id < |oid|;
    hide Ring, OrderAt;
    forall p | p in queues
      ensures Ring(os', oid, queues[p])
    {
      FreshSlotRing(os, oid, queues[p], s, b);
    }
  }

  lemma FreshSlotRing<V>(store: Store<V>, index: seq<int>, keys: seq<int>, s: int, b: Block<Node<V>>)
    requires Ring(store, index, keys) && 0 <= s < |store| && !store[s].Live?
    ensures Ring(store[s := b], index, keys)
  {
    forall i | 0 <= i < |keys|
      ensures SameLinks(store, store[s := b], index[keys[i]])
    {
      assert Keyed(store, index, keys[i]);
    }
    hide Ring;
    RingFrame(store, store[s := b], index, index, keys);
  }

  lemma FreshLevel(ls: LevelNodes, idx: seq<int>, bids: seq<int>, asks: seq<int>, firsts: map<int, int>,
                   s: int, b: Block<Node<OrdersAtPrice>>)
    requires LevelsOk(ls, idx, bids, asks, firsts) && 0 <= s < |ls| && !ls[s].Live?
    ensures LevelsOk(ls[s := b], idx, bids, asks, firsts) && Loose(idx, s)
  {
    var ls' := ls[s := b];
    FreshSlotRing(ls, idx, bids, s, b);
    FreshSlotRing(ls, idx, asks, s, b);
    hide Ring, SortedPrices;
    forall p: nat | p < |idx|
      ensures idx[p] != s && (p in firsts ==> LevelAt(ls', idx, p, SideAt(bids, p), firsts[p]))
    {
      if p in firsts {
        assert LevelAt(ls, idx, p, SideAt(bids, p), firsts[p]);
      }
    }
    forall p | p in firsts
      ensures LevelAt(ls', idx, p, SideAt(bids, p), firsts[p])
    {
      assert LevelAt(ls, idx, p, SideAt(bids, p), firsts[p]);
    }
  }

  // ----- the first order of each level -----

  lemma FirstsKeys(m: Mirror, oid: seq<int>)
    requires MirrorOk(m) && |oid| == MAX_ORDER_IDS
    ensures Firsts(oid, m.queues).Keys == m.queues.Keys
    ensures forall p :: p in m.queues ==>
              p in Firsts(oid, m.queues) && m.queues[p] != [] && Firsts(oid, m.queues)[p] == oid[m.queues[p][0]]
  {
    forall p | p in m.queues
      ensures m.queues[p] != [] && m.queues[p][0] < |oid|
    {
      assert QueueOk(m, p);
      QueuedEntry(m, p, m.queues[p][0]);
    }
  }

  /** An order that is not first in its queue may come or go without any level noticing. */
  lemma FirstsAfterAppend(m: Mirror, oid: seq<int>, p: int, id: nat, s: int)
    requires MirrorOk(m) && |oid| == MAX_ORDER_IDS && id < |oid| && id !in m.entries && p in m.queues
    ensures Firsts(oid[id := s], m.queues[p := m.queues[p] + [id]]) == Firsts(oid, m.queues)
  {
    forall x | x in m.queues
      ensures m.queues[x] != [] && m.queues[x][0] != id && m.queues[x][0] < |oid|
    {
      assert QueueOk(m, x);
      QueuedEntry(m, x, m.queues[x][0]);
    }
  }

  lemma FirstsAfterStart(m: Mirror, oid: seq<int>, p: int, id: nat, s: int)
    requires MirrorOk(m) && |oid| == MAX_ORDER_IDS && id < |oid| && id !in m.entries && p !in m.queues
    ensures Firsts(oid[id := s], m.queues[p := [id]]) == Firsts(oid, m.queues)[p := s]
  {
    forall x | x in m.queues
      ensures m.queues[x] != [] && m.queues[x][0] != id && m.queues[x][0] < |oid|
    {
      assert QueueOk(m, x);
      QueuedEntry(m, x, m.queues[x][0]);
    }
  }

  /** Fewer than `MAX_PRICE_LEVELS` levels exist while some price has none. */
  lemma LevelsFit(m: Mirror, p: int)
    requires MirrorOk(m) && p !in m.queues && 0 <= p < MAX_PRICE_LEVELS
    ensures |m.queues| < MAX_PRICE_LEVELS
  {
    hide Range;
    forall x | x in m.queues
      ensures x in Range(MAX_PRICE_LEVELS) - {p}
    {
      assert QueueOk(m, x);
    }
    assert m.queues.Keys <= Range(MAX_PRICE_LEVELS) - {p};
    SubsetCardinality(m.queues.Keys, Range(MAX_PRICE_LEVELS) - {p});
  }

  /** Fewer than `MAX_ORDER_IDS` orders exist, as id 0 is never used. */
  lemma OrdersFit(m: Mirror)
    requires MirrorOk(m)
    ensures |m.entries| < MAX_ORDER_IDS
  {
    hide Range;
    var ids: set<int> := m.entries.Keys;
    forall id | id in m.entries
      ensures id in Range(MAX_ORDER_IDS) - {0}
    {
      assert EntryQueued(m, id);
      QueuedEntry(m, m.entries[id].price, id);
    }
    assert ids <= Range(MAX_ORDER_IDS) - {0};
    SubsetCardinality(ids, Range(MAX_ORDER_IDS) - {0});
  }
}
