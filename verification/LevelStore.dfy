/** What the linked nodes, the level slots and the occupancy words of one book side
    must look like to represent a given sequence of resting orders. */
module LevelStore {
  import opened Types
  import opened Words
  import opened PriceBands
  import opened HalfBooks
  import opened MemPools

  const OCCUPANCY_WORDS: nat := 256
  const SUMMARY_WORDS: nat := 4

  /** Address of a level slot: the side whose array holds it, and its index there. */
  datatype LevelPtr = NoLevel | LevelOf(side: Side, tick: int)

  /** A resting order as stored: a node of the FIFO of its level. */
  datatype OrderNode = OrderNode(
    next: int, prev: int, level: LevelPtr, marketOrderId: nat, clientOrderId: nat,
    priority: nat, remaining: nat, clientId: nat)

  datatype FIFOLevel = FIFOLevel(first: int, last: int, nextPriority: nat, total: nat)

  type Store = seq<Block<OrderNode>>

  predicate IsNode(store: Store, slot: int) {
    0 <= slot < |store| && store[slot].Live?
  }

  /** Node `n` stores order `o` of book side `side`. */
  predicate Holds(n: OrderNode, o: Resting, side: Side) {
    && n.level == LevelOf(side, o.tick)
    && n.marketOrderId == o.marketOrderId
    && n.clientOrderId == o.clientOrderId
    && n.clientId == o.clientId
    && n.priority == o.priority
    && n.remaining == o.quantity
  }

  /** Forward link of the `i`-th order: the next order at the same price. */
  function NextLink(slots: seq<int>, orders: seq<Resting>, i: nat): int
    requires |slots| == |orders| && i < |orders|
  {
    if i + 1 < |orders| && orders[i + 1].tick == orders[i].tick then slots[i + 1] else NULL
  }

  /** Backward link of the `i`-th order: the previous order at the same price. */
  function PrevLink(slots: seq<int>, orders: seq<Resting>, i: nat): int
    requires |slots| == |orders| && i < |orders|
  {
    if i > 0 && orders[i - 1].tick == orders[i].tick then slots[i - 1] else NULL
  }

  ghost predicate NodeOk(side: Side, store: Store, slots: seq<int>, orders: seq<Resting>, i: nat)
    requires |slots| == |orders| && i < |orders|
  {
    && IsNode(store, slots[i])
    && Holds(store[slots[i]].value, orders[i], side)
    && store[slots[i]].value.next == NextLink(slots, orders, i)
    && store[slots[i]].value.prev == PrevLink(slots, orders, i)
  }

  ghost predicate EndsOk(levels: seq<FIFOLevel>, slots: seq<int>, orders: seq<Resting>, i: nat)
    requires |levels| == TICK_COUNT && |slots| == |orders| && i < |orders|
    requires 0 <= orders[i].tick < TICK_COUNT
  {
    && (PrevLink(slots, orders, i) == NULL ==> levels[orders[i].tick].first == slots[i])
    && (NextLink(slots, orders, i) == NULL ==> levels[orders[i].tick].last == slots[i])
  }

  /** The level slot of tick `t` apart from its queue: counter, aggregate, emptiness. */
  ghost predicate LevelOk(level: FIFOLevel, h: Half, t: int)
    requires |h.nextPriority| == TICK_COUNT && 0 <= t < TICK_COUNT
  {
    && level.nextPriority == h.nextPriority[t]
    && level.total == SumAt(h.orders, t)
    && (level.first == NULL <==> !HasTick(h.orders, t))
    && (level.last == NULL <==> !HasTick(h.orders, t))
  }

  ghost predicate InBounds(orders: seq<Resting>) {
    forall i :: 0 <= i < |orders| ==> 0 <= orders[i].tick < TICK_COUNT
  }

  ghost predicate Distinct(slots: seq<int>) {
    forall i, j :: 0 <= i < j < |slots| ==> slots[i] != slots[j]
  }

  ghost predicate NodesOk(side: Side, store: Store, levels: seq<FIFOLevel>, slots: seq<int>, orders: seq<Resting>) {
    && |levels| == TICK_COUNT
    && |slots| == |orders|
    && InBounds(orders)
    && Distinct(slots)
    && (forall i :: 0 <= i < |slots| ==> NodeOk(side, store, slots, orders, i))
    && (forall i :: 0 <= i < |slots| ==> EndsOk(levels, slots, orders, i))
  }

  ghost predicate LevelsOk(levels: seq<FIFOLevel>, h: Half) {
    && |levels| == |h.nextPriority| == TICK_COUNT
    && (forall t :: 0 <= t < TICK_COUNT ==> LevelOk(levels[t], h, t))
  }

  /** The nodes at `slots` and the level array form, level by level, a doubly linked
      acyclic FIFO that lists exactly `h.orders`. */
  ghost predicate Linked(side: Side, store: Store, levels: seq<FIFOLevel>, slots: seq<int>, h: Half) {
    && |slots| == |h.orders| && |levels| == |h.nextPriority| == TICK_COUNT && InBounds(h.orders)
    && NodesOk(side, store, levels, slots, h.orders)
    && LevelsOk(levels, h)
  }

  /** Only the nodes at `slots` matter. */
  lemma LinkedFrame(side: Side, store: Store, store': Store, levels: seq<FIFOLevel>, slots: seq<int>, h: Half)
    requires Linked(side, store, levels, slots, h) && |store| <= |store'|
    requires forall i :: 0 <= i < |slots| ==> IsNode(store, slots[i]) && store'[slots[i]] == store[slots[i]]
    ensures Linked(side, store', levels, slots, h)
  {
    forall i | 0 <= i < |slots|
      ensures NodeOk(side, store', slots, h.orders, i)
    {
      assert NodeOk(side, store, slots, h.orders, i);
    }
  }

  // ----- appending at the tail of a level -----

  /** The store after a node is written at `slot` and linked behind the old tail. */
  function LinkedIn(store: Store, level: FIFOLevel, slot: int, node: OrderNode): Store
    requires 0 <= slot < |store|
    requires level.first != NULL ==> IsNode(store, level.last) && level.last != slot
  {
    var s := store[slot := Live(node)];
    if level.first == NULL then s
    else s[level.last := Live(s[level.last].value.(next := slot))]
  }

  function TailLevel(level: FIFOLevel, slot: int, quantity: nat): FIFOLevel {
    FIFOLevel(if level.first == NULL then slot else level.first, slot,
              level.nextPriority + 1, level.total + quantity)
  }

  /** Order `i` is the last of its level. */
  lemma LastOfLevel(side: Direction, store: Store, levels: seq<FIFOLevel>, slots: seq<int>, h: Half, t: int)
    requires Linked(side, store, levels, slots, h) && WellFormed(side, h) && 0 <= t < TICK_COUNT
    ensures var p := InsertPos(side, h.orders, t);
            if HasTick(h.orders, t)
            then p > 0 && h.orders[p - 1].tick == t && levels[t].last == slots[p - 1] && levels[t].first != NULL
            else (p > 0 ==> h.orders[p - 1].tick != t) && levels[t].first == NULL
    ensures forall i :: InsertPos(side, h.orders, t) <= i < |h.orders| ==> h.orders[i].tick != t
  {
    LastAtTick(side, h.orders, t);
    hide InsertPos, HasTick, SumAt, Sorted;
    var p := InsertPos(side, h.orders, t);
    assert LevelOk(levels[t], h, t);
    if HasTick(h.orders, t) {
      assert EndsOk(levels, slots, h.orders, p - 1);
      assert NextLink(slots, h.orders, p - 1) == NULL;
    }
  }

  /** A newcomer is inserted right behind the last order at its price, if there is one. */
  lemma LastAtTick(side: Direction, orders: seq<Resting>, t: int)
    requires Sorted(side, orders)
    ensures var p := InsertPos(side, orders, t);
            && (HasTick(orders, t) <==> p > 0 && orders[p - 1].tick == t)
            && (forall i :: p <= i < |orders| ==> orders[i].tick != t)
  {
    InsertPosSplits(side, orders, t);
    hide InsertPos;
    var p := InsertPos(side, orders, t);
    if k :| 0 <= k < |orders| && orders[k].tick == t && k < p - 1 {
      assert Before(side, orders[k], orders[p - 1]);
    }
  }

  lemma AppendLinked(side: Direction, store: Store, levels: seq<FIFOLevel>, slots: seq<int>, h: Half,
                     slot: int, node: OrderNode, x: Resting, h': Half)
    requires Linked(side, store, levels, slots, h) && WellFormed(side, h)
    requires 0 <= x.tick < TICK_COUNT && 0 <= slot < |store| && !IsNode(store, slot)
    requires Holds(node, x, side) && node.next == NULL && node.prev == levels[x.tick].last
    requires h' == Insert(side, h, x.tick, x.clientId, x.clientOrderId, x.marketOrderId, x.quantity)
    requires x.priority == levels[x.tick].nextPriority
    requires levels[x.tick].first != NULL ==> IsNode(store, levels[x.tick].last)
    ensures var p := InsertPos(side, h.orders, x.tick);
            Linked(side, LinkedIn(store, levels[x.tick], slot, node),
                   levels[x.tick := TailLevel(levels[x.tick], slot, x.quantity)],
                   slots[..p] + [slot] + slots[p..], h')
  {
    var t, p := x.tick, InsertPos(side, h.orders, x.tick);
    assert x.priority == h.nextPriority[t] by {
      assert LevelOk(levels[t], h, t);
    }
    var slots' := slots[..p] + [slot] + slots[p..];
    SpliceIsSpliced(slots, p, slot);
    SpliceIsSpliced(h.orders, p, x);
    var levels' := levels[t := TailLevel(levels[t], slot, x.quantity)];
    AppendNodes(side, store, levels, slots, h, slot, node, x, slots', h'.orders,
                LinkedIn(store, levels[t], slot, node), levels');
    AppendLevels(side, store, levels, slots, h, slot, x, h', levels');
  }

  lemma SpliceIsSpliced<T(!new)>(s: seq<T>, p: nat, x: T)
    requires p <= |s|
    ensures Spliced(s[..p] + [x] + s[p..], s, p, x)
  {
  }

  lemma AppendNodes(side: Direction, store: Store, levels: seq<FIFOLevel>, slots: seq<int>, h: Half,
                    slot: int, node: OrderNode, x: Resting, slots': seq<int>, orders': seq<Resting>,
                    store': Store, levels': seq<FIFOLevel>)
    requires Linked(side, store, levels, slots, h) && WellFormed(side, h)
    requires 0 <= x.tick < TICK_COUNT && 0 <= slot < |store| && !IsNode(store, slot)
    requires Holds(node, x, side) && node.next == NULL && node.prev == levels[x.tick].last
    requires levels[x.tick].first != NULL ==> IsNode(store, levels[x.tick].last)
    requires var p := InsertPos(side, h.orders, x.tick);
             Spliced(slots', slots, p, slot) && Spliced(orders', h.orders, p, x)
    requires store' == LinkedIn(store, levels[x.tick], slot, node)
    requires levels' == levels[x.tick := TailLevel(levels[x.tick], slot, x.quantity)]
    ensures NodesOk(side, store', levels', slots', orders')
  {
    hide WellFormed, LevelsOk, NodeOk, EndsOk, InsertPos, Holds, LinkedIn;
    var p := InsertPos(side, h.orders, x.tick);
    NodesElsewhere(side, store, levels, slots, h.orders, slot);
    SplicedDistinct(slots', slots, p, slot);
    assert |slots'| == |orders'| == |slots| + 1;
    hide Spliced, Distinct;
    forall i | 0 <= i < |slots'|
      ensures 0 <= orders'[i].tick < TICK_COUNT
      ensures NodeOk(side, store', slots', orders', i)
      ensures EndsOk(levels', slots', orders', i)
    {
      AppendNeighbours(side, store, levels, slots, h, x.tick, i);
      AppendOne(side, store, levels, slots, h.orders, slot, node, x, p, slots', orders', i);
    }
  }

  lemma NodesElsewhere(side: Side, store: Store, levels: seq<FIFOLevel>, slots: seq<int>, orders: seq<Resting>,
                       slot: int)
    requires NodesOk(side, store, levels, slots, orders) && !IsNode(store, slot)
    ensures slot !in slots
  {
    forall i | 0 <= i < |slots|
      ensures slots[i] != slot
    {
      assert NodeOk(side, store, slots, orders, i);
    }
  }

  lemma AppendLevels(side: Direction, store: Store, levels: seq<FIFOLevel>, slots: seq<int>, h: Half,
                     slot: int, x: Resting, h': Half, levels': seq<FIFOLevel>)
    requires Linked(side, store, levels, slots, h) && slot != NULL
    requires |h.nextPriority| == TICK_COUNT && 0 <= x.tick < TICK_COUNT
    requires h' == Insert(side, h, x.tick, x.clientId, x.clientOrderId, x.marketOrderId, x.quantity)
    requires levels' == levels[x.tick := TailLevel(levels[x.tick], slot, x.quantity)]
    ensures LevelsOk(levels', h')
  {
    forall u | 0 <= u < TICK_COUNT
      ensures LevelOk(levels'[u], h', u)
    {
      assert LevelOk(levels[u], h, u);
      InsertSum(side, h, x.tick, x.clientId, x.clientOrderId, x.marketOrderId, x.quantity, u);
    }
  }

  /** What `AppendOne` needs to know about the orders next to the insertion point. */
  lemma AppendNeighbours(side: Direction, store: Store, levels: seq<FIFOLevel>, slots: seq<int>, h: Half,
                         t: int, i: nat)
    requires Linked(side, store, levels, slots, h) && WellFormed(side, h)
    requires 0 <= t < TICK_COUNT && i <= |slots|
    ensures var p, orders := InsertPos(side, h.orders, t), h.orders;
            && (p > 0 ==> NodeOk(side, store, slots, orders, p - 1))
            && (if p > 0 && orders[p - 1].tick == t
                then levels[t].last == slots[p - 1] && levels[t].first != NULL
                else levels[t].first == levels[t].last == NULL)
            && (i < p ==> NodeOk(side, store, slots, orders, i) && EndsOk(levels, slots, orders, i))
            && (i > p ==> NodeOk(side, store, slots, orders, i - 1) && EndsOk(levels, slots, orders, i - 1))
            && (i > p ==> orders[i - 1].tick != t && (p > 0 ==> slots[i - 1] != slots[p - 1]))
            && (i + 1 < p ==> slots[i] != slots[p - 1])
            && (i + 1 < p && orders[i].tick == t ==> orders[i + 1].tick == t)
            && (p < |orders| ==> orders[p].tick != t && (p > 0 ==> orders[p].tick != orders[p - 1].tick))
  {
    LastOfLevel(side, store, levels, slots, h, t);
    var p := InsertPos(side, h.orders, t);
    assert LevelOk(levels[t], h, t);
    InsertPosSplits(side, h.orders, t);
    if i + 1 < p && h.orders[i].tick == t {
      assert Before(side, h.orders[i], h.orders[i + 1]);
    }
  }

  /** `s'` is `s` with `x` inserted at `p`. */
  ghost predicate Spliced<T(!new)>(s': seq<T>, s: seq<T>, p: nat, x: T) {
    && |s'| == |s| + 1 && p <= |s|
    && s'[p] == x
    && (forall k :: 0 <= k < p ==> s'[k] == s[k])
    && (forall k :: p < k < |s'| ==> s'[k] == s[k - 1])
  }

  lemma SplicedDistinct(slots': seq<int>, slots: seq<int>, p: nat, slot: int)
    requires Spliced(slots', slots, p, slot) && Distinct(slots) && slot !in slots
    ensures Distinct(slots')
  {
  }

  lemma AppendOne(side: Direction, store: Store, levels: seq<FIFOLevel>, slots: seq<int>, orders: seq<Resting>,
                  slot: int, node: OrderNode, x: Resting, p: nat, slots': seq<int>, orders': seq<Resting>, i: nat)
    requires |levels| == TICK_COUNT && |slots| == |orders| && InBounds(orders)
    requires 0 <= x.tick < TICK_COUNT && 0 <= slot < |store| && !IsNode(store, slot)
    requires Holds(node, x, side) && node.next == NULL && node.prev == levels[x.tick].last
    requires Spliced(slots', slots, p, slot) && Spliced(orders', orders, p, x) && i < |slots'|
    requires p > 0 ==> NodeOk(side, store, slots, orders, p - 1)
    requires if p > 0 && orders[p - 1].tick == x.tick
             then levels[x.tick].last == slots[p - 1] && levels[x.tick].first != NULL
             else levels[x.tick].first == levels[x.tick].last == NULL
    requires i < p ==> NodeOk(side, store, slots, orders, i) && EndsOk(levels, slots, orders, i)
    requires i > p ==> NodeOk(side, store, slots, orders, i - 1) && EndsOk(levels, slots, orders, i - 1)
    requires i > p ==> orders[i - 1].tick != x.tick && (p > 0 ==> slots[i - 1] != slots[p - 1])
    requires i + 1 < p ==> slots[i] != slots[p - 1]
    requires i + 1 < p && orders[i].tick == x.tick ==> orders[i + 1].tick == x.tick
    requires p < |orders| ==> orders[p].tick != x.tick && (p > 0 ==> orders[p].tick != orders[p - 1].tick)
    ensures 0 <= orders'[i].tick < TICK_COUNT
    ensures NodeOk(side, LinkedIn(store, levels[x.tick], slot, node), slots', orders', i)
    ensures EndsOk(levels[x.tick := TailLevel(levels[x.tick], slot, x.quantity)], slots', orders', i)
  {
  }

  lemma InsertSum(side: Direction, h: Half, t: int, clientId: nat, clientOrderId: nat, marketOrderId: nat,
                  quantity: nat, u: int)
    requires |h.nextPriority| == TICK_COUNT && 0 <= t < TICK_COUNT
    ensures var h' := Insert(side, h, t, clientId, clientOrderId, marketOrderId, quantity);
            && SumAt(h'.orders, u) == SumAt(h.orders, u) + (if u == t then quantity else 0)
            && (HasTick(h'.orders, u) <==> HasTick(h.orders, u) || u == t)
  {
    var p := InsertPos(side, h.orders, t);
    var x := Resting(clientId, clientOrderId, marketOrderId, t, quantity, h.nextPriority[t]);
    hide InsertPos, SumAt, HasTick;
    SpliceSum(h.orders, p, x, u);
    SpliceTicks(h.orders, p, x, u);
  }

  lemma SpliceSum(orders: seq<Resting>, p: nat, x: Resting, u: int)
    requires p <= |orders|
    ensures SumAt(orders[..p] + [x] + orders[p..], u) == SumAt(orders, u) + if x.tick == u then x.quantity else 0
  {
    hide SumAt;
    var longer := orders[..p] + [x] + orders[p..];
    SumAtSplit(longer, p, u);
    assert longer[..p] == orders[..p] && longer[p + 1..] == orders[p..];
    SumAtConcat(orders[..p], orders[p..], u);
    assert orders == orders[..p] + orders[p..];
  }

  lemma SpliceTicks(orders: seq<Resting>, p: nat, x: Resting, u: int)
    requires p <= |orders|
    ensures HasTick(orders[..p] + [x] + orders[p..], u) <==> HasTick(orders, u) || x.tick == u
  {
    var longer := orders[..p] + [x] + orders[p..];
    assert longer[p] == x;
    if k :| 0 <= k < |orders| && orders[k].tick == u {
      assert longer[if k < p then k else k + 1] == orders[k];
    }
    if k :| 0 <= k < |longer| && longer[k].tick == u && k != p {
      assert longer[k] == orders[if k < p then k else k - 1];
    }
  }

  // ----- filling -----

  lemma FillLinked(side: Direction, store: Store, levels: seq<FIFOLevel>, slots: seq<int>, h: Half, i: nat,
                   quantity: nat)
    requires Linked(side, store, levels, slots, h) && i < |slots| && quantity <= h.orders[i].quantity
    ensures IsNode(store, slots[i]) && quantity <= store[slots[i]].value.remaining
    ensures quantity <= levels[h.orders[i].tick].total
    ensures var n, t := store[slots[i]].value, h.orders[i].tick;
            Linked(side, store[slots[i] := Live(n.(remaining := n.remaining - quantity))],
                   levels[t := levels[t].(total := levels[t].total - quantity)], slots, FillAt(h, i, quantity))
  {
    assert NodeOk(side, store, slots, h.orders, i);
    var n, t := store[slots[i]].value, h.orders[i].tick;
    FillLevels(levels, h, i, quantity);
    FillNodes(side, store, levels, levels[t := levels[t].(total := levels[t].total - quantity)], slots, h, i, quantity);
  }

  /** A fill changes neither the links nor the ends of any queue. */
  lemma FillNodes(side: Direction, store: Store, levels: seq<FIFOLevel>, levels': seq<FIFOLevel>, slots: seq<int>,
                  h: Half, i: nat, quantity: nat)
    requires NodesOk(side, store, levels, slots, h.orders) && i < |slots| && quantity <= h.orders[i].quantity
    requires IsNode(store, slots[i]) && store[slots[i]].value.remaining == h.orders[i].quantity
    requires |levels'| == |levels|
    requires forall u :: 0 <= u < |levels| ==> levels'[u].first == levels[u].first && levels'[u].last == levels[u].last
    ensures var n := store[slots[i]].value;
            NodesOk(side, store[slots[i] := Live(n.(remaining := n.remaining - quantity))], levels', slots,
                    FillAt(h, i, quantity).orders)
  {
    var n := store[slots[i]].value;
    var store' := store[slots[i] := Live(n.(remaining := n.remaining - quantity))];
    var orders' := FillAt(h, i, quantity).orders;
    forall k | 0 <= k < |slots|
      ensures NodeOk(side, store', slots, orders', k) && EndsOk(levels', slots, orders', k)
    {
      assert NodeOk(side, store, slots, h.orders, k) && EndsOk(levels, slots, h.orders, k);
    }
  }

  lemma FillLevels(levels: seq<FIFOLevel>, h: Half, i: nat, quantity: nat)
    requires LevelsOk(levels, h) && i < |h.orders| && quantity <= h.orders[i].quantity
    requires 0 <= h.orders[i].tick < TICK_COUNT
    ensures var t := h.orders[i].tick;
            && quantity <= levels[t].total
            && LevelsOk(levels[t := levels[t].(total := levels[t].total - quantity)], FillAt(h, i, quantity))
  {
    hide SumAt, HasTick;
    forall u | 0 <= u < TICK_COUNT
      ensures LevelOk(levels[u], h, u)
      ensures SumAt(FillAt(h, i, quantity).orders, u)
           == SumAt(h.orders, u) - (if h.orders[i].tick == u then quantity else 0)
      ensures HasTick(FillAt(h, i, quantity).orders, u) <==> HasTick(h.orders, u)
    {
      FillSum(h, i, quantity, u);
    }
  }

  lemma FillSum(h: Half, i: nat, quantity: nat, u: int)
    requires i < |h.orders| && quantity <= h.orders[i].quantity
    ensures SumAt(FillAt(h, i, quantity).orders, u)
         == SumAt(h.orders, u) - (if h.orders[i].tick == u then quantity else 0)
    ensures HasTick(FillAt(h, i, quantity).orders, u) <==> HasTick(h.orders, u)
  {
    var filled := FillAt(h, i, quantity).orders;
    assert filled[..i] == h.orders[..i] && filled[i + 1..] == h.orders[i + 1..];
    assert forall k :: 0 <= k < |h.orders| ==> filled[k].tick == h.orders[k].tick;
    hide SumAt;
    SumAtSplit(h.orders, i, u);
    SumAtSplit(filled, i, u);
  }

  // ----- unlinking -----

  /** The store after the neighbours of the node at `slot` are joined to each other. */
  function LinkedOut(store: Store, slot: int): Store
    requires IsNode(store, slot)
    requires var n := store[slot].value;
             && (n.prev != NULL ==> IsNode(store, n.prev))
             && (n.next != NULL ==> IsNode(store, n.next))
  {
    var n := store[slot].value;
    var s := if n.prev == NULL then store else store[n.prev := Live(store[n.prev].value.(next := n.next))];
    if n.next == NULL then s else s[n.next := Live(s[n.next].value.(prev := n.prev))]
  }

  /** The level slot after the node leaves its queue; an emptied level is reset. */
  function LevelWithout(level: FIFOLevel, n: OrderNode): FIFOLevel
    requires n.remaining <= level.total
  {
    var l := level.(first := if n.prev == NULL then n.next else level.first,
                    last := if n.next == NULL then n.prev else level.last,
                    total := level.total - n.remaining);
    if l.first == NULL then l.(total := 0, nextPriority := 1) else l
  }

  /** Orders at one price are consecutive. */
  lemma SameTickRun(side: Direction, orders: seq<Resting>, i: nat, j: nat)
    requires Sorted(side, orders) && i < j < |orders| && orders[i].tick == orders[j].tick
    ensures forall k :: i <= k <= j ==> orders[k].tick == orders[i].tick
  {
    forall k | i <= k <= j
      ensures orders[k].tick == orders[i].tick
    {
      assert i < k ==> Before(side, orders[i], orders[k]);
      assert k < j ==> Before(side, orders[k], orders[j]);
    }
  }

  /** An order with no neighbour at its price is alone there. */
  lemma Alone(side: Direction, slots: seq<int>, orders: seq<Resting>, i: nat)
    requires Sorted(side, orders) && |slots| == |orders| && i < |orders|
    requires i > 0 ==> slots[i - 1] >= 0
    requires i + 1 < |slots| ==> slots[i + 1] >= 0
    ensures PrevLink(slots, orders, i) == NULL && NextLink(slots, orders, i) == NULL
            <==> forall k :: 0 <= k < |orders| && orders[k].tick == orders[i].tick ==> k == i
  {
    forall k | 0 <= k < |orders| && orders[k].tick == orders[i].tick && k != i
      ensures PrevLink(slots, orders, i) != NULL || NextLink(slots, orders, i) != NULL
    {
      if k < i {
        SameTickRun(side, orders, k, i);
      } else {
        SameTickRun(side, orders, i, k);
      }
    }
    if PrevLink(slots, orders, i) != NULL {
      assert orders[i - 1].tick == orders[i].tick;
    }
    if NextLink(slots, orders, i) != NULL {
      assert orders[i + 1].tick == orders[i].tick;
    }
  }

  /** Such an order leaves its price empty. */
  lemma Emptied(side: Direction, slots: seq<int>, h: Half, i: nat)
    requires WellFormed(side, h) && |slots| == |h.orders| && i < |h.orders| && InBounds(h.orders)
    requires i > 0 ==> slots[i - 1] >= 0
    requires i + 1 < |slots| ==> slots[i + 1] >= 0
    ensures PrevLink(slots, h.orders, i) == NULL && NextLink(slots, h.orders, i) == NULL
            <==> !HasTick(RemoveAt(h, i).orders, h.orders[i].tick)
  {
    hide HasTick;
    Alone(side, slots, h.orders, i);
    RemoveTicks(h.orders, i, h.orders[i].tick);
    assert RemoveAt(h, i).orders == h.orders[..i] + h.orders[i + 1..];
  }

  lemma NeighboursAreNodes(side: Direction, store: Store, levels: seq<FIFOLevel>, slots: seq<int>, h: Half, i: nat)
    requires Linked(side, store, levels, slots, h) && i < |slots|
    ensures IsNode(store, slots[i]) && Holds(store[slots[i]].value, h.orders[i], side)
    ensures var n := store[slots[i]].value;
            && (n.prev != NULL ==> n.prev in slots && IsNode(store, n.prev) && n.prev != slots[i])
            && (n.next != NULL ==> n.next in slots && IsNode(store, n.next) && n.next != slots[i])
            && n.remaining <= levels[h.orders[i].tick].total
  {
    assert NodeOk(side, store, slots, h.orders, i);
    if i > 0 {
      assert NodeOk(side, store, slots, h.orders, i - 1);
    }
    if i + 1 < |slots| {
      assert NodeOk(side, store, slots, h.orders, i + 1);
    }
    assert LevelOk(levels[h.orders[i].tick], h, h.orders[i].tick);
    SumAtSplit(h.orders, i, h.orders[i].tick);
  }

  lemma UnlinkLinked(side: Direction, store: Store, levels: seq<FIFOLevel>, slots: seq<int>, h: Half, i: nat)
    requires Linked(side, store, levels, slots, h) && WellFormed(side, h) && i < |slots|
    ensures IsNode(store, slots[i])
    ensures var n := store[slots[i]].value;
            && (n.prev != NULL ==> IsNode(store, n.prev))
            && (n.next != NULL ==> IsNode(store, n.next))
            && n.remaining <= levels[h.orders[i].tick].total
    ensures var t := h.orders[i].tick;
            Linked(side, LinkedOut(store, slots[i]), levels[t := LevelWithout(levels[t], store[slots[i]].value)],
                   slots[..i] + slots[i + 1..], RemoveAt(h, i))
  {
    NeighboursAreNodes(side, store, levels, slots, h, i);
    var h', slots' := RemoveAt(h, i), slots[..i] + slots[i + 1..];
    assert h'.orders == h.orders[..i] + h.orders[i + 1..];
    var t := h.orders[i].tick;
    var levels' := levels[t := LevelWithout(levels[t], store[slots[i]].value)];
    UnlinkNodes(side, store, levels, slots, h, i, slots', h'.orders, LinkedOut(store, slots[i]), levels');
    UnlinkLevels(side, store, levels, slots, h, i, levels');
  }

  lemma UnlinkNodes(side: Direction, store: Store, levels: seq<FIFOLevel>, slots: seq<int>, h: Half, i: nat,
                    slots': seq<int>, orders': seq<Resting>, store': Store, levels': seq<FIFOLevel>)
    requires Linked(side, store, levels, slots, h) && WellFormed(side, h) && i < |slots|
    requires IsNode(store, slots[i])
    requires var n := store[slots[i]].value;
             && (n.prev != NULL ==> IsNode(store, n.prev))
             && (n.next != NULL ==> IsNode(store, n.next))
             && n.remaining <= levels[h.orders[i].tick].total
    requires Without(slots', slots, i) && Without(orders', h.orders, i)
    requires store' == LinkedOut(store, slots[i])
    requires var t := h.orders[i].tick;
             levels' == levels[t := LevelWithout(levels[t], store[slots[i]].value)]
    ensures NodesOk(side, store', levels', slots', orders')
  {
    assert EndsOk(levels, slots, h.orders, i) && NodeOk(side, store, slots, h.orders, i);
    assert Distinct(slots');
    forall k | 0 <= k < |slots'|
      ensures 0 <= orders'[k].tick < TICK_COUNT
      ensures NodeOk(side, store', slots', orders', k)
      ensures EndsOk(levels', slots', orders', k)
    {
      var j := if k < i then k else k + 1;
      UnlinkNeighbours(side, store, levels, slots, h, i, j);
      if h.orders[j].tick != h.orders[i].tick {
        NotBetween(side, h.orders, i, j);
      }
      UnlinkOne(side, store, levels, slots, h.orders, i, slots', orders', k, j);
    }
  }

  lemma UnlinkLevels(side: Direction, store: Store, levels: seq<FIFOLevel>, slots: seq<int>, h: Half, i: nat,
                     levels': seq<FIFOLevel>)
    requires Linked(side, store, levels, slots, h) && WellFormed(side, h) && i < |slots|
    requires IsNode(store, slots[i]) && store[slots[i]].value.remaining <= levels[h.orders[i].tick].total
    requires var t := h.orders[i].tick;
             levels' == levels[t := LevelWithout(levels[t], store[slots[i]].value)]
    ensures LevelsOk(levels', RemoveAt(h, i))
  {
    forall u | 0 <= u < TICK_COUNT
      ensures LevelOk(levels'[u], RemoveAt(h, i), u)
    {
      UnlinkLevel(side, store, levels, slots, h, i, u);
    }
  }

  /** `s'` is `s` with position `i` dropped. */
  ghost predicate Without<T(!new)>(s': seq<T>, s: seq<T>, i: nat) {
    && |s'| + 1 == |s| && i < |s|
    && (forall k :: 0 <= k < i ==> s'[k] == s[k])
    && (forall k :: i <= k < |s'| ==> s'[k] == s[k + 1])
  }

  lemma UnlinkOne(side: Direction, store: Store, levels: seq<FIFOLevel>, slots: seq<int>, orders: seq<Resting>, i: nat,
                  slots': seq<int>, orders': seq<Resting>, k: nat, j: nat)
    requires |levels| == TICK_COUNT && |slots| == |orders| && InBounds(orders) && i < |slots|
    requires Without(slots', slots, i) && Without(orders', orders, i)
    requires k < |slots'| && j == (if k < i then k else k + 1)
    requires NodeOk(side, store, slots, orders, i) && EndsOk(levels, slots, orders, i)
    requires NodeOk(side, store, slots, orders, j) && EndsOk(levels, slots, orders, j)
    requires i > 0 ==> NodeOk(side, store, slots, orders, i - 1)
    requires i + 1 < |slots| ==> NodeOk(side, store, slots, orders, i + 1)
    requires store[slots[i]].value.remaining <= levels[orders[i].tick].total
    requires i > 0 && j + 1 != i ==> slots[j] != slots[i - 1]
    requires i + 1 < |slots| && j != i + 1 ==> slots[j] != slots[i + 1]
    requires (j + 1 < i ==> slots[j + 1] >= 0) && (j > i + 1 ==> slots[j - 1] >= 0)
    requires orders[j].tick != orders[i].tick ==>
               && (j + 1 == i && i + 1 < |orders| ==> orders[i + 1].tick != orders[j].tick)
               && (i + 1 == j && i > 0 ==> orders[i - 1].tick != orders[j].tick)
    requires orders[j].tick == orders[i].tick ==>
               && (j < i ==> orders[j + 1].tick == orders[i].tick)
               && (j > i ==> orders[j - 1].tick == orders[i].tick)
               && (j < i ==> orders[i - 1].tick == orders[i].tick)
               && (j > i ==> orders[i + 1].tick == orders[i].tick)
    ensures 0 <= orders'[k].tick < TICK_COUNT
    ensures NodeOk(side, LinkedOut(store, slots[i]), slots', orders', k)
    ensures var t := orders[i].tick;
            EndsOk(levels[t := LevelWithout(levels[t], store[slots[i]].value)], slots', orders', k)
  {
    assert slots'[k] == slots[j] && orders'[k] == orders[j];
    LinksWithout(slots, orders, i, slots', orders', k, j);
  }

  /** The links of order `j` once order `i` is gone: those of `i` where `i` was its neighbour. */
  lemma LinksWithout(slots: seq<int>, orders: seq<Resting>, i: nat, slots': seq<int>, orders': seq<Resting>,
                     k: nat, j: nat)
    requires |slots| == |orders| && Without(slots', slots, i) && Without(orders', orders, i)
    requires k < |slots'| && j == (if k < i then k else k + 1)
    requires orders[j].tick != orders[i].tick ==>
               && (j + 1 == i && i + 1 < |orders| ==> orders[i + 1].tick != orders[j].tick)
               && (i + 1 == j && i > 0 ==> orders[i - 1].tick != orders[j].tick)
    ensures NextLink(slots', orders', k)
         == NextLink(slots, orders, if j + 1 == i && orders[j].tick == orders[i].tick then i else j)
    ensures PrevLink(slots', orders', k)
         == PrevLink(slots, orders, if i + 1 == j && orders[j].tick == orders[i].tick then i else j)
  {
  }

  /** What `UnlinkOne` needs to know about the orders next to `i` and `j`. */
  lemma UnlinkNeighbours(side: Direction, store: Store, levels: seq<FIFOLevel>, slots: seq<int>, h: Half,
                         i: nat, j: nat)
    requires Linked(side, store, levels, slots, h) && WellFormed(side, h) && i < |slots| && j < |slots| && j != i
    ensures NodeOk(side, store, slots, h.orders, j) && EndsOk(levels, slots, h.orders, j)
    ensures i > 0 ==> NodeOk(side, store, slots, h.orders, i - 1)
    ensures i + 1 < |slots| ==> NodeOk(side, store, slots, h.orders, i + 1)
    ensures i > 0 && j + 1 != i ==> slots[j] != slots[i - 1]
    ensures i + 1 < |slots| && j != i + 1 ==> slots[j] != slots[i + 1]
    ensures (j + 1 < i ==> slots[j + 1] >= 0) && (j > i + 1 ==> slots[j - 1] >= 0)
    ensures h.orders[j].tick == h.orders[i].tick ==>
              && (j < i ==> h.orders[j + 1].tick == h.orders[i - 1].tick == h.orders[i].tick)
              && (j > i ==> h.orders[j - 1].tick == h.orders[i + 1].tick == h.orders[i].tick)
  {
    if h.orders[j].tick == h.orders[i].tick {
      SameTickRun(side, h.orders, if j < i then j else i, if j < i then i else j);
    }
    if j + 1 < |slots| {
      assert NodeOk(side, store, slots, h.orders, j + 1);
    }
    if j > 0 {
      assert NodeOk(side, store, slots, h.orders, j - 1);
    }
  }

  /** A run of one price is not interrupted, so removing an order of another price
      leaves the neighbours of the run alone. */
  lemma NotBetween(side: Direction, orders: seq<Resting>, i: nat, j: nat)
    requires Sorted(side, orders) && i < |orders| && j < |orders| && orders[i].tick != orders[j].tick
    ensures j + 1 == i && i + 1 < |orders| ==> orders[i + 1].tick != orders[j].tick
    ensures i + 1 == j && i > 0 ==> orders[i - 1].tick != orders[j].tick
  {
    if j + 1 == i && i + 1 < |orders| {
      assert Before(side, orders[j], orders[i]) && Before(side, orders[i], orders[i + 1]);
    }
    if i + 1 == j && i > 0 {
      assert Before(side, orders[i - 1], orders[i]) && Before(side, orders[i], orders[j]);
    }
  }

  lemma UnlinkLevel(side: Direction, store: Store, levels: seq<FIFOLevel>, slots: seq<int>, h: Half, i: nat, u: nat)
    requires Linked(side, store, levels, slots, h) && WellFormed(side, h) && i < |slots| && u < TICK_COUNT
    requires IsNode(store, slots[i]) && store[slots[i]].value.remaining <= levels[h.orders[i].tick].total
    ensures var t := h.orders[i].tick;
            LevelOk(levels[t := LevelWithout(levels[t], store[slots[i]].value)][u], RemoveAt(h, i), u)
  {
    assert LevelOk(levels[u], h, u);
    RemoveSum(side, h, i, u);
    if u == h.orders[i].tick {
      UnlinkEnds(side, store, levels, slots, h, i);
    }
    hide SumAt, HasTick, NodesOk, LevelsOk, WellFormed;
  }

  /** What the node taken out says about the queue it leaves. */
  lemma UnlinkEnds(side: Direction, store: Store, levels: seq<FIFOLevel>, slots: seq<int>, h: Half, i: nat)
    requires Linked(side, store, levels, slots, h) && WellFormed(side, h) && i < |slots|
    ensures IsNode(store, slots[i])
    ensures var n, t := store[slots[i]].value, h.orders[i].tick;
            && n.remaining == h.orders[i].quantity
            && HasTick(h.orders, t)
            && (n.prev == NULL && n.next == NULL <==> !HasTick(RemoveAt(h, i).orders, t))
  {
    hide SumAt, LevelsOk;
    assert NodeOk(side, store, slots, h.orders, i);
    if i > 0 {
      assert NodeOk(side, store, slots, h.orders, i - 1);
    }
    if i + 1 < |slots| {
      assert NodeOk(side, store, slots, h.orders, i + 1);
    }
    Emptied(side, slots, h, i);
  }

  lemma RemoveSum(side: Direction, h: Half, i: nat, u: int)
    requires WellFormed(side, h) && i < |h.orders| && 0 <= h.orders[i].tick < TICK_COUNT
    ensures var rest := RemoveAt(h, i).orders;
            && SumAt(h.orders, u) == SumAt(rest, u) + (if u == h.orders[i].tick then h.orders[i].quantity else 0)
            && (HasTick(rest, u) <==> exists k :: 0 <= k < |h.orders| && k != i && h.orders[k].tick == u)
            && (!HasTick(rest, u) ==> SumAt(rest, u) == 0)
  {
    var rest := RemoveAt(h, i).orders;
    assert rest == h.orders[..i] + h.orders[i + 1..];
    SumAtSplit(h.orders, i, u);
    SumAtConcat(h.orders[..i], h.orders[i + 1..], u);
    RemoveTicks(h.orders, i, u);
    EmptySum(rest, u);
  }

  lemma RemoveTicks(orders: seq<Resting>, i: nat, u: int)
    requires i < |orders|
    ensures HasTick(orders[..i] + orders[i + 1..], u)
            <==> exists k :: 0 <= k < |orders| && k != i && orders[k].tick == u
  {
    var rest := orders[..i] + orders[i + 1..];
    if k :| 0 <= k < |orders| && k != i && orders[k].tick == u {
      assert rest[if k < i then k else k - 1] == orders[k];
    }
    if HasTick(rest, u) {
      var k :| 0 <= k < |rest| && rest[k].tick == u;
      assert rest[k] == orders[if k < i then k else k + 1];
    }
  }

  lemma {:induction false} EmptySum(orders: seq<Resting>, t: int)
    ensures !HasTick(orders, t) ==> SumAt(orders, t) == 0
  {
    if orders == [] {
    } else {
      EmptySum(orders[1..], t);
      if HasTick(orders[1..], t) {
        var k :| 0 <= k < |orders[1..]| && orders[1..][k].tick == t;
        assert orders[k + 1].tick == t;
      }
      assert orders[0].tick == t ==> HasTick(orders, t);
    }
  }

  // ----- occupancy words -----

  predicate Occupied(occupancy: seq<Word>, t: nat)
    requires |occupancy| == OCCUPANCY_WORDS && t < TICK_COUNT
  {
    Bit(occupancy[t / 64], t % 64)
  }

  /** A summary digit is set exactly when its occupancy word has a digit set. */
  ghost predicate SummaryOk(occupancy: seq<Word>, summary: seq<Word>) {
    && |occupancy| == OCCUPANCY_WORDS && |summary| == SUMMARY_WORDS
    && forall w :: 0 <= w < OCCUPANCY_WORDS ==>
         (Bit(summary[w / 64], w % 64) <==> occupancy[w] != 0)
  }

  /** An occupancy digit is set exactly when its level holds an order. */
  ghost predicate BitmapOk(occupancy: seq<Word>, summary: seq<Word>, orders: seq<Resting>) {
    && SummaryOk(occupancy, summary)
    && forall t :: 0 <= t < TICK_COUNT ==> (Occupied(occupancy, t) <==> HasTick(orders, t))
  }

  function BestOf(orders: seq<Resting>): int {
    if orders == [] then INVALID_TICK else orders[0].tick
  }
}
