/** One side of an order book as it is stored: level slots addressed by tick, nodes
    in a shared pool, a two-level occupancy bitmap and the cached best tick. */
module PriceLevelArrays {
  import opened Types
  import opened Words
  import opened PriceBands
  import opened HalfBooks
  import opened MemPools
  import opened LevelStore

  /** A digit that is set in a 64-bit word has a position below 64. */
  lemma BitBelow64(w: Word, i: nat)
    requires Bit(w, i)
    ensures i < WORD_BITS
  {
    Pow2OfWord();
    if i >= 64 {
      NoBitsAbove(w, 64, i);
    }
  }

  lemma TailIsNode(side: Direction, store: Store, levels: seq<FIFOLevel>, slots: seq<int>, h: Half, t: int)
    requires Linked(side, store, levels, slots, h) && WellFormed(side, h) && 0 <= t < TICK_COUNT
    ensures levels[t].first != NULL ==> IsNode(store, levels[t].last) && levels[t].last in slots
  {
    LastOfLevel(side, store, levels, slots, h, t);
    if levels[t].first != NULL {
      NeighboursAreNodes(side, store, levels, slots, h, InsertPos(side, h.orders, t) - 1);
    }
  }

  lemma AppendOrder(side: Direction, store: Store, levels: seq<FIFOLevel>, slots: seq<int>, h: Half,
                    slot: int, t: int, clientId: nat, clientOrderId: nat, marketOrderId: nat, quantity: nat)
    requires Linked(side, store, levels, slots, h) && WellFormed(side, h)
    requires 0 <= t < TICK_COUNT && 0 <= slot < |store| && !IsNode(store, slot)
    ensures levels[t].first != NULL ==> IsNode(store, levels[t].last) && levels[t].last != slot
    ensures var p, level := InsertPos(side, h.orders, t), levels[t];
            var node := OrderNode(NULL, level.last, LevelOf(side, t), marketOrderId, clientOrderId,
                                  level.nextPriority, quantity, clientId);
            var store', slots' := LinkedIn(store, level, slot, node), slots[..p] + [slot] + slots[p..];
            var h' := Insert(side, h, t, clientId, clientOrderId, marketOrderId, quantity);
            && Linked(side, store', levels[t := TailLevel(level, slot, quantity)], slots', h')
            && WellFormed(side, h')
            && |store'| == |store|
            && forall k :: 0 <= k < |store| && store[k].Live? && k !in slots ==> store'[k] == store[k]
  {
    TailIsNode(side, store, levels, slots, h, t);
    var level := levels[t];
    var node := OrderNode(NULL, level.last, LevelOf(side, t), marketOrderId, clientOrderId,
                          level.nextPriority, quantity, clientId);
    AppendLinked(side, store, levels, slots, h, slot, node,
                 Resting(clientId, clientOrderId, marketOrderId, t, quantity, level.nextPriority),
                 Insert(side, h, t, clientId, clientOrderId, marketOrderId, quantity));
    InsertWellFormed(side, h, t, clientId, clientOrderId, marketOrderId, quantity);
    OthersUntouched(store, level, slot, node);
  }

  lemma OthersUntouched(store: Store, level: FIFOLevel, slot: int, node: OrderNode)
    requires 0 <= slot < |store|
    requires level.first != NULL ==> IsNode(store, level.last) && level.last != slot
    ensures var r := LinkedIn(store, level, slot, node);
            && |r| == |store|
            && forall k :: 0 <= k < |store| && k != slot && (level.first == NULL || k != level.last) ==>
                 r[k] == store[k]
  {
  }

  lemma InsertSums(side: Direction, h: Half, t: int, clientId: nat, clientOrderId: nat, marketOrderId: nat,
                   quantity: nat)
    requires |h.nextPriority| == TICK_COUNT && 0 <= t < TICK_COUNT
    ensures var h' := Insert(side, h, t, clientId, clientOrderId, marketOrderId, quantity);
            forall u :: HasTick(h'.orders, u) <==> HasTick(h.orders, u) || u == t
  {
    var h' := Insert(side, h, t, clientId, clientOrderId, marketOrderId, quantity);
    forall u
      ensures HasTick(h'.orders, u) <==> HasTick(h.orders, u) || u == t
    {
      InsertSum(side, h, t, clientId, clientOrderId, marketOrderId, quantity, u);
    }
  }

  lemma InsertBest(side: Direction, h: Half, t: int, clientId: nat, clientOrderId: nat, marketOrderId: nat,
                   quantity: nat)
    requires WellFormed(side, h) && 0 <= t < TICK_COUNT
    ensures var h' := Insert(side, h, t, clientId, clientOrderId, marketOrderId, quantity);
            BestOf(h'.orders) == if !HasTick(h.orders, t) && (h.orders == [] || Better(side, t, h.orders[0].tick))
                                 then t else BestOf(h.orders)
  {
    var p := InsertPos(side, h.orders, t);
    if HasTick(h.orders, t) {
      var k :| 0 <= k < |h.orders| && h.orders[k].tick == t;
      assert k > 0 ==> Before(side, h.orders[0], h.orders[k]);
    }
  }

  /** Taking a node out touches its neighbours only. */
  lemma OnlyNeighbours(store: Store, slots: seq<int>, slot: int)
    requires IsNode(store, slot)
    requires var n := store[slot].value;
             && (n.prev != NULL ==> n.prev in slots && IsNode(store, n.prev))
             && (n.next != NULL ==> n.next in slots && IsNode(store, n.next))
    ensures |LinkedOut(store, slot)| == |store| && IsNode(LinkedOut(store, slot), slot)
    ensures forall s :: 0 <= s < |store| && s !in slots ==> LinkedOut(store, slot)[s] == store[s]
  {
  }

  lemma DroppedSlot(side: Direction, store: Store, levels: seq<FIFOLevel>, slots: seq<int>, h: Half, i: nat)
    requires Linked(side, store, levels, slots, h) && i < |slots|
    ensures slots[i] !in slots[..i] + slots[i + 1..]
  {
  }

  lemma FillKeepsBitmap(occupancy: seq<Word>, summary: seq<Word>, h: Half, i: nat, quantity: nat)
    requires i < |h.orders| && quantity <= h.orders[i].quantity
    ensures BitmapOk(occupancy, summary, h.orders) ==> BitmapOk(occupancy, summary, FillAt(h, i, quantity).orders)
    ensures BestOf(FillAt(h, i, quantity).orders) == BestOf(h.orders)
  {
    var orders := FillAt(h, i, quantity).orders;
    assert forall k :: 0 <= k < |orders| ==> orders[k].tick == h.orders[k].tick;
    SameTicks(h.orders, orders);
  }

  lemma SameTicks(a: seq<Resting>, b: seq<Resting>)
    requires |a| == |b| && forall k :: 0 <= k < |a| ==> a[k].tick == b[k].tick
    ensures forall t :: HasTick(a, t) <==> HasTick(b, t)
  {
    forall t
      ensures HasTick(a, t) <==> HasTick(b, t)
    {
      if HasTick(a, t) {
        var k :| 0 <= k < |a| && a[k].tick == t;
        assert b[k].tick == t;
      }
    }
  }

  /** Removing an order leaves the best tick alone unless it emptied that tick, and
      leaves every other tick as it was. */
  lemma RemoveBest(side: Direction, h: Half, i: nat)
    requires WellFormed(side, h) && i < |h.orders| && 0 <= h.orders[i].tick < TICK_COUNT
    ensures var rest, t := RemoveAt(h, i).orders, h.orders[i].tick;
            && (t != BestOf(h.orders) || HasTick(rest, t) ==> BestOf(rest) == BestOf(h.orders))
            && forall u :: HasTick(rest, u) <==> HasTick(h.orders, u) && (u != t || HasTick(rest, t))
  {
    var rest, t := RemoveAt(h, i).orders, h.orders[i].tick;
    assert rest == h.orders[..i] + h.orders[i + 1..];
    forall u
      ensures HasTick(rest, u) <==> HasTick(h.orders, u) && (u != t || HasTick(rest, t))
    {
      RemoveTicks(h.orders, i, u);
    }
    if i == 0 && HasTick(rest, t) {
      RemoveTicks(h.orders, i, t);
      var k :| 0 <= k < |h.orders| && k != i && h.orders[k].tick == t;
      SameTickRun(side, h.orders, 0, k);
    }
  }

  /** The best occupied tick is that of the first order. */
  lemma BestIsFirst(side: Direction, orders: seq<Resting>, best: int)
    requires Sorted(side, orders) && InBounds(orders)
    requires best == INVALID_TICK ==> forall t :: 0 <= t < TICK_COUNT ==> !HasTick(orders, t)
    requires best != INVALID_TICK ==> HasTick(orders, best)
    requires best != INVALID_TICK ==> forall t :: 0 <= t < TICK_COUNT && HasTick(orders, t) ==> !Better(side, t, best)
    ensures best == BestOf(orders)
  {
    if orders != [] {
      assert HasTick(orders, orders[0].tick);
      var k :| 0 <= k < |orders| && orders[k].tick == best;
      assert k > 0 ==> Before(side, orders[0], orders[k]);
    }
  }

  class PriceLevels {
    const side: Direction
    const pool: MemPool<OrderNode>
    const summary: array<Word>
    const occupancy: array<Word>
    const levels: array<FIFOLevel>
    var bestTick: int

    /** The side as a value, and the pool slot of each of its orders. */
    ghost var half: Half
    ghost var slots: seq<int>

    ghost predicate Shaped()
      reads this
    {
      && summary.Length == SUMMARY_WORDS && occupancy.Length == OCCUPANCY_WORDS && levels.Length == TICK_COUNT
      && summary != occupancy
    }

    /** The nodes and the level slots list `half`. */
    ghost predicate Listed()
      reads this, pool, pool.storage, levels
    {
      && levels.Length == TICK_COUNT
      && WellFormed(side, half)
      && Linked(side, pool.storage[..], levels[..], slots, half)
    }

    /** The bitmap and the cached best tick agree with `orders`. */
    ghost predicate Indexed(orders: seq<Resting>)
      reads this, summary, occupancy
    {
      BitmapOk(occupancy[..], summary[..], orders) && bestTick == BestOf(orders)
    }

    ghost predicate Valid()
      reads this, pool, pool.storage, summary, occupancy, levels
    {
      Shaped() && Listed() && Indexed(half.orders)
    }

    constructor (side: Direction, pool: MemPool<OrderNode>)
      ensures this.side == side && this.pool == pool
      ensures fresh(summary) && fresh(occupancy) && fresh(levels)
      ensures Valid() && half == EmptyHalf() && slots == []
    {
      this.side := side;
      this.pool := pool;
      bestTick := INVALID_TICK;
      summary := new Word[SUMMARY_WORDS](_ => 0);
      occupancy := new Word[OCCUPANCY_WORDS](_ => 0);
      levels := new FIFOLevel[TICK_COUNT](_ => FIFOLevel(NULL, NULL, 1, 0));
      half := EmptyHalf();
      slots := [];
      ZeroHasNoBits();
    }

    function IndexOf(level: LevelPtr): int
      requires level.LevelOf?
    {
      level.tick
    }

    predicate Owns(level: LevelPtr) {
      level.LevelOf? && level.side == side
    }

    /** Stores a node in the pool and links it behind the tail of its level. */
    method LinkTail(node: OrderNode, level: FIFOLevel) returns (order: int)
      requires pool.Valid() && !pool.Exhausted()
      requires level.first != NULL ==> pool.IsLive(level.last)
      modifies pool, pool.storage
      ensures pool.Valid() && pool.inUse == old(pool.inUse) + 1
      ensures 0 <= order < pool.storage.Length && !old(pool.IsLive(order))
      ensures level.first != NULL ==> old(pool.IsLive(level.last)) && level.last != order
      ensures pool.storage[..] == LinkedIn(old(pool.storage[..]), level, order, node)
    {
      order := pool.Allocate(node);
      if level.first != NULL {
        assert pool.storage[..][level.last] == old(pool.storage[..])[level.last];
        pool.Set(level.last, pool.Get(level.last).(next := order));
      }
    }

    /** Queues a node at the tail of its level: the part of adding that concerns links. */
    method Link(tick: int, clientId: nat, clientOrderId: nat, marketOrderId: nat, quantity: nat)
      returns (order: int)
      requires Listed() && pool.Valid() && !pool.Exhausted() && 0 <= tick < TICK_COUNT
      modifies this`half, this`slots, pool, pool.storage, levels
      ensures Listed() && pool.Valid() && pool.inUse == old(pool.inUse) + 1
      ensures half == Insert(side, old(half), tick, clientId, clientOrderId, marketOrderId, quantity)
      ensures var p := InsertPos(side, old(half).orders, tick);
              slots == old(slots)[..p] + [order] + old(slots)[p..]
      ensures 0 <= order < pool.storage.Length && !old(pool.IsLive(order))
      ensures forall s :: old(pool.IsLive(s)) && s !in old(slots) ==> pool.storage[s] == old(pool.storage[s])
    {
      hide NodesOk, LevelsOk, Sorted, SumAt, InsertPos;
      ghost var store, lvs, h := pool.storage[..], levels[..], half;
      var level := levels[tick];
      TailIsNode(side, store, lvs, slots, h, tick);
      assert level.first != NULL ==> store[level.last] == pool.storage[level.last];
      var node := OrderNode(NULL, level.last, LevelOf(side, tick), marketOrderId, clientOrderId,
                            level.nextPriority, quantity, clientId);
      order := LinkTail(node, level);
      JoinLevel(tick, order, quantity);
      AppendOrder(side, store, lvs, slots, h, order, tick, clientId, clientOrderId, marketOrderId, quantity);
      half := Insert(side, h, tick, clientId, clientOrderId, marketOrderId, quantity);
      slots := slots[..InsertPos(side, h.orders, tick)] + [order] + slots[InsertPos(side, h.orders, tick)..];
      assert forall s :: 0 <= s < |store| && store[s].Live? && s !in old(slots) ==> pool.storage[..][s] == store[s];
    }

    /** Makes a node the tail of its level. */
    method JoinLevel(tick: int, order: int, quantity: nat)
      requires levels.Length == TICK_COUNT && 0 <= tick < TICK_COUNT
      modifies levels
      ensures levels[..] == old(levels[..])[tick := TailLevel(old(levels[..])[tick], order, quantity)]
    {
      var level := levels[tick];
      if level.first == NULL {
        level := level.(first := order);
      }
      levels[tick] := level.(last := order, nextPriority := level.nextPriority + 1, total := level.total + quantity);
    }

    /** Brings bitmap and best tick up to date after an order was queued at `tick`. */
    method Occupy(tick: int, wasEmpty: bool, ghost before: seq<Resting>)
      requires Shaped() && Indexed(before) && 0 <= tick < TICK_COUNT
      requires wasEmpty <==> !HasTick(before, tick)
      requires forall u :: HasTick(half.orders, u) <==> HasTick(before, u) || u == tick
      requires BestOf(half.orders) ==
               if wasEmpty && (before == [] || Better(side, tick, before[0].tick)) then tick else BestOf(before)
      requires InBounds(before)
      modifies this`bestTick, summary, occupancy
      ensures Indexed(half.orders)
    {
      if wasEmpty {
        MarkOccupied(tick);
        if bestTick == INVALID_TICK || Better(side, tick, bestTick) {
          bestTick := tick;
        }
      }
    }

    /** Queues a new order behind every other order at `tick`. */
    method AddOrder(tick: int, clientId: nat, clientOrderId: nat, marketOrderId: nat, quantity: nat)
      returns (order: int)
      requires Valid() && pool.Valid() && !pool.Exhausted()
      requires 0 <= tick < TICK_COUNT
      modifies this, pool, pool.storage, summary, occupancy, levels
      ensures Valid() && pool.Valid() && pool.inUse == old(pool.inUse) + 1
      ensures half == Insert(side, old(half), tick, clientId, clientOrderId, marketOrderId, quantity)
      ensures var p := InsertPos(side, old(half).orders, tick);
              slots == old(slots)[..p] + [order] + old(slots)[p..]
      ensures 0 <= order < pool.storage.Length && !old(pool.IsLive(order))
      ensures forall s :: old(pool.IsLive(s)) && s !in old(slots) ==> pool.storage[s] == old(pool.storage[s])
    {
      hide NodesOk, Sorted, SumAt, InsertPos;
      ghost var h := half;
      var wasEmpty := levels[tick].first == NULL;
      assert LevelOk(levels[..][tick], h, tick);
      order := Link(tick, clientId, clientOrderId, marketOrderId, quantity);
      InsertSums(side, h, tick, clientId, clientOrderId, marketOrderId, quantity);
      InsertBest(side, h, tick, clientId, clientOrderId, marketOrderId, quantity);
      Occupy(tick, wasEmpty, h.orders);
    }

    /** Takes a fill off a resting order and off the aggregate of its level. */
    method ApplyFill(order: int, quantity: nat, ghost i: nat)
      requires Valid() && pool.Valid()
      requires i < |slots| && slots[i] == order && quantity <= half.orders[i].quantity
      modifies this`half, pool.storage, levels
      ensures Valid() && pool.Valid()
      ensures half == FillAt(old(half), i, quantity)
      ensures pool.IsLive(order)
      ensures forall s :: old(pool.IsLive(s)) && s !in old(slots) ==> pool.storage[s] == old(pool.storage[s])
    {
      hide NodesOk, LevelsOk, Sorted, SumAt, BitmapOk, BestOf, MemPool.Valid;
      ghost var store, lvs, h := pool.storage[..], levels[..], half;
      FillLinked(side, store, lvs, slots, h, i, quantity);
      NeighboursAreNodes(side, store, lvs, slots, h, i);
      assert store[order] == pool.storage[order];
      var node := pool.Get(order);
      var tick := IndexOf(node.level);
      pool.Set(order, node.(remaining := node.remaining - quantity));
      levels[tick] := levels[tick].(total := levels[tick].total - quantity);
      half := FillAt(h, i, quantity);
      assert levels[..] == lvs[tick := lvs[tick].(total := lvs[tick].total - quantity)];
      FillWellFormed(side, h, i, quantity);
      FillKeepsBitmap(occupancy[..], summary[..], h, i, quantity);
    }

    /** Joins the neighbours of a node to each other. */
    method JoinNeighbours(order: int)
      requires pool.Valid() && pool.IsLive(order)
      requires var n := pool.Get(order);
               (n.prev != NULL ==> pool.IsLive(n.prev)) && (n.next != NULL ==> pool.IsLive(n.next))
      modifies pool.storage
      ensures pool.Valid()
      ensures var store := old(pool.storage[..]);
              && IsNode(store, order)
              && (store[order].value.prev != NULL ==> IsNode(store, store[order].value.prev))
              && (store[order].value.next != NULL ==> IsNode(store, store[order].value.next))
              && pool.storage[..] == LinkedOut(store, order)
    {
      ghost var store := pool.storage[..];
      var node := pool.Get(order);
      if node.prev != NULL {
        pool.Set(node.prev, pool.Get(node.prev).(next := node.next));
      }
      if node.next != NULL {
        assert pool.storage[..][node.next].Live?;
        pool.Set(node.next, pool.Get(node.next).(prev := node.prev));
      }
    }

    /** Takes a node out of its level; an emptied level is reset. */
    method LeaveLevel(node: OrderNode)
      requires levels.Length == TICK_COUNT && node.level.LevelOf? && 0 <= node.level.tick < TICK_COUNT
      requires node.remaining <= levels[node.level.tick].total
      modifies levels
      ensures var t, lvs := node.level.tick, old(levels[..]);
              levels[..] == lvs[t := LevelWithout(lvs[t], node)]
    {
      var tick := IndexOf(node.level);
      var level := levels[tick];
      if node.prev == NULL {
        level := level.(first := node.next);
      }
      if node.next == NULL {
        level := level.(last := node.prev);
      }
      level := level.(total := level.total - node.remaining);
      if level.first == NULL {
        level := level.(total := 0, nextPriority := 1);
      }
      levels[tick] := level;
    }

    /** The part of removing that concerns links. */
    method Unlink(order: int, ghost i: nat)
      requires Listed() && pool.Valid() && i < |slots| && slots[i] == order
      modifies this`half, this`slots, pool.storage, levels
      ensures Listed() && pool.Valid()
      ensures OrderFits(old(half).orders[i], old(half).nextPriority)
      ensures half == RemoveAt(old(half), i)
      ensures slots == old(slots)[..i] + old(slots)[i + 1..]
      ensures pool.IsLive(order) && order !in slots
      ensures forall s :: old(pool.IsLive(s)) && s !in old(slots) ==> pool.storage[s] == old(pool.storage[s])
    {
      hide NodesOk, LevelsOk, Sorted, SumAt, BitmapOk, MemPool.Valid, LinkedOut, LevelWithout;
      ghost var store, lvs, h := pool.storage[..], levels[..], half;
      RemoveWellFormed(side, h, i);
      DroppedSlot(side, store, lvs, slots, h, i);
      NeighboursAreNodes(side, store, lvs, slots, h, i);
      UnlinkLinked(side, store, lvs, slots, h, i);
      OnlyNeighbours(store, slots, order);
      assert forall s :: 0 <= s < |store| ==> store[s] == pool.storage[s];
      var node := pool.Get(order);
      JoinNeighbours(order);
      LeaveLevel(node);
      half := RemoveAt(h, i);
      slots := slots[..i] + slots[i + 1..];
      assert Linked(side, pool.storage[..], levels[..], slots, half);
      assert forall s :: 0 <= s < |store| ==> pool.storage[s] == LinkedOut(store, order)[s];
    }

    /** Brings bitmap and best tick up to date after an order left `tick`. */
    method Vacate(tick: int, ghost before: seq<Resting>)
      requires Shaped() && Indexed(before) && 0 <= tick < TICK_COUNT
      requires Sorted(side, half.orders) && InBounds(half.orders)
      requires levels[tick].first == NULL <==> !HasTick(half.orders, tick)
      requires forall u :: HasTick(half.orders, u) <==> HasTick(before, u) && (u != tick || HasTick(half.orders, tick))
      requires tick != BestOf(before) || HasTick(half.orders, tick) ==> BestOf(half.orders) == BestOf(before)
      modifies this`bestTick, summary, occupancy
      ensures Indexed(half.orders)
    {
      if levels[tick].first == NULL {
        ClearOccupied(tick);
        if tick == bestTick {
          bestTick := FindBestTick();
          ghost var occ := occupancy[..];
          assert forall t: nat :: t < TICK_COUNT ==> (Occupied(occ, t) <==> HasTick(half.orders, t));
          BestIsFirst(side, half.orders, bestTick);
        }
      }
    }

    /** Takes an order out of the book and returns its node to the pool. */
    method RemoveOrder(order: int, ghost i: nat)
      requires Valid() && pool.Valid()
      requires i < |slots| && slots[i] == order
      modifies this, pool, pool.storage, summary, occupancy, levels
      ensures Valid() && pool.Valid() && pool.inUse == old(pool.inUse) - 1
      ensures OrderFits(old(half).orders[i], old(half).nextPriority)
      ensures half == RemoveAt(old(half), i)
      ensures slots == old(slots)[..i] + old(slots)[i + 1..]
      ensures forall s :: old(pool.IsLive(s)) && s !in old(slots) ==> pool.storage[s] == old(pool.storage[s])
    {
      hide NodesOk, Sorted, SumAt;
      ghost var h := half;
      NeighboursAreNodes(side, pool.storage[..], levels[..], slots, h, i);
      assert pool.storage[..][order] == pool.storage[order];
      var tick := IndexOf(pool.Get(order).level);
      Unlink(order, i);
      RemoveBest(side, h, i);
      assert LevelOk(levels[..][tick], half, tick);
      Vacate(tick, h.orders);
      Release(order);
    }

    /** Returns the node of an order that is no longer listed. */
    method Release(order: int)
      requires Valid() && pool.Valid() && pool.IsLive(order) && order !in slots
      modifies pool, pool.storage
      ensures Valid() && pool.Valid() && pool.inUse == old(pool.inUse) - 1
      ensures forall s :: old(pool.IsLive(s)) && s != order ==> pool.storage[s] == old(pool.storage[s])
    {
      ghost var store := pool.storage[..];
      pool.Set(order, pool.Get(order).(next := NULL, prev := NULL, level := NoLevel));
      pool.Deallocate(order);
      forall i | 0 <= i < |slots|
        ensures IsNode(store, slots[i]) && pool.storage[..][slots[i]] == store[slots[i]]
      {
        assert NodeOk(side, store, slots, half.orders, i);
      }
      LinkedFrame(side, store, pool.storage[..], levels[..], slots, half);
    }

    method MarkOccupied(tick: nat)
      requires summary.Length == SUMMARY_WORDS && occupancy.Length == OCCUPANCY_WORDS && summary != occupancy
      requires tick < TICK_COUNT && SummaryOk(occupancy[..], summary[..])
      modifies summary, occupancy
      ensures SummaryOk(occupancy[..], summary[..])
      ensures forall t: nat :: t < TICK_COUNT ==>
                (Occupied(occupancy[..], t) <==> t == tick || Occupied(old(occupancy[..]), t))
    {
      hide Bit, LowestBit, HighestBit;
      var word := tick / 64;
      ghost var occ, sum := occupancy[..], summary[..];
      occupancy[word] := SetBit(occupancy[word], tick % 64);
      summary[word / 64] := SetBit(summary[word / 64], word % 64);
      MarkedSummary(occ, sum, tick, occupancy[..], summary[..]);
    }

    method ClearOccupied(tick: nat)
      requires summary.Length == SUMMARY_WORDS && occupancy.Length == OCCUPANCY_WORDS && summary != occupancy
      requires tick < TICK_COUNT && SummaryOk(occupancy[..], summary[..])
      modifies summary, occupancy
      ensures SummaryOk(occupancy[..], summary[..])
      ensures forall t: nat :: t < TICK_COUNT ==>
                (Occupied(occupancy[..], t) <==> t != tick && Occupied(old(occupancy[..]), t))
    {
      hide Bit, LowestBit, HighestBit;
      var word := tick / 64;
      ghost var occ, sum := occupancy[..], summary[..];
      occupancy[word] := ClearBit(occupancy[word], tick % 64);
      if occupancy[word] == 0 {
        summary[word / 64] := ClearBit(summary[word / 64], word % 64);
      }
      ClearedSummary(occ, sum, tick, occupancy[..], summary[..]);
    }

    /** The best occupied tick, found from the bitmap alone. */
    method FindBestTick() returns (best: int)
      requires summary.Length == SUMMARY_WORDS && occupancy.Length == OCCUPANCY_WORDS
      requires SummaryOk(occupancy[..], summary[..])
      ensures best == INVALID_TICK ==> forall t: nat :: t < TICK_COUNT ==> !Occupied(occupancy[..], t)
      ensures best != INVALID_TICK ==> 0 <= best < TICK_COUNT && Occupied(occupancy[..], best)
      ensures best != INVALID_TICK ==>
                forall t: nat :: t < TICK_COUNT && Occupied(occupancy[..], t) ==> !Better(side, t, best)
    {
      hide Bit, LowestBit, HighestBit;
      ghost var occ, sum := occupancy[..], summary[..];
      if side == BUY {
        var w := SUMMARY_WORDS;
        while w > 0
          invariant 0 <= w <= SUMMARY_WORDS
          invariant forall k :: w <= k < SUMMARY_WORDS ==> sum[k] == 0
        {
          w := w - 1;
          if summary[w] != 0 {
            HighestInWord(occ, sum, w);
            var word := w * 64 + HighestBit(summary[w]);
            return word * 64 + HighestBit(occupancy[word]);
          }
        }
      } else {
        var w := 0;
        while w < SUMMARY_WORDS
          invariant 0 <= w <= SUMMARY_WORDS
          invariant forall k :: 0 <= k < w ==> sum[k] == 0
        {
          if summary[w] != 0 {
            LowestInWord(occ, sum, w);
            var word := w * 64 + LowestBit(summary[w]);
            return word * 64 + LowestBit(occupancy[word]);
          }
          w := w + 1;
        }
      }
      forall t: nat | t < TICK_COUNT
        ensures !Occupied(occ, t)
      {
        NothingUnderZero(occ, sum, t);
      }
      best := INVALID_TICK;
    }
  }

  lemma MarkedSummary(occ: seq<Word>, sum: seq<Word>, tick: nat, occ': seq<Word>, sum': seq<Word>)
    requires SummaryOk(occ, sum) && tick < TICK_COUNT
    requires occ' == occ[tick / 64 := SetBit(occ[tick / 64], tick % 64)]
    requires sum' == sum[tick / 64 / 64 := SetBit(sum[tick / 64 / 64], tick / 64 % 64)]
    ensures SummaryOk(occ', sum')
  {
    hide Bit, LowestBit, HighestBit;
    ZeroHasNoBits();
    assert Bit(occ'[tick / 64], tick % 64);
    forall w | 0 <= w < OCCUPANCY_WORDS
      ensures Bit(sum'[w / 64], w % 64) <==> occ'[w] != 0
    {
      assert Bit(sum[w / 64], w % 64) <==> occ[w] != 0;
    }
  }

  lemma ClearedSummary(occ: seq<Word>, sum: seq<Word>, tick: nat, occ': seq<Word>, sum': seq<Word>)
    requires SummaryOk(occ, sum) && tick < TICK_COUNT
    requires occ' == occ[tick / 64 := ClearBit(occ[tick / 64], tick % 64)]
    requires sum' == if occ'[tick / 64] != 0 then sum
                     else sum[tick / 64 / 64 := ClearBit(sum[tick / 64 / 64], tick / 64 % 64)]
    ensures SummaryOk(occ', sum')
  {
    hide Bit, LowestBit, HighestBit;
    var word := tick / 64;
    ZeroHasNoBits();
    assert occ'[word] != 0 ==> Bit(occ[word], HighestBit(occ'[word]));
    forall w | 0 <= w < OCCUPANCY_WORDS
      ensures Bit(sum'[w / 64], w % 64) <==> occ'[w] != 0
    {
      assert Bit(sum[w / 64], w % 64) <==> occ[w] != 0;
    }
  }

  /** A tick under a zero summary word is not occupied. */
  lemma NothingUnderZero(occupancy: seq<Word>, summary: seq<Word>, t: nat)
    requires SummaryOk(occupancy, summary) && t < TICK_COUNT
    ensures summary[t / 64 / 64] == 0 ==> !Occupied(occupancy, t)
    ensures occupancy[t / 64] == 0 ==> !Occupied(occupancy, t)
    ensures Occupied(occupancy, t) ==> Bit(summary[t / 64 / 64], t / 64 % 64)
  {
    hide Bit, LowestBit, HighestBit;
    ZeroHasNoBits();
    var word := t / 64;
    assert Bit(summary[word / 64], word % 64) <==> occupancy[word] != 0;
  }

  /** In the last non-zero summary word, counting leading zeros twice finds the highest tick. */
  lemma HighestInWord(occupancy: seq<Word>, summary: seq<Word>, at: nat)
    requires SummaryOk(occupancy, summary) && at < SUMMARY_WORDS && summary[at] != 0
    requires forall k :: at < k < SUMMARY_WORDS ==> summary[k] == 0
    ensures var word := at * 64 + HighestBit(summary[at]);
            && word < OCCUPANCY_WORDS && occupancy[word] != 0
            && var best := word * 64 + HighestBit(occupancy[word]);
               && best < TICK_COUNT && Occupied(occupancy, best)
               && forall t: nat :: t < TICK_COUNT && Occupied(occupancy, t) ==> t <= best
  {
    hide Bit, LowestBit, HighestBit;
    var digit := HighestBit(summary[at]);
    var word := at * 64 + digit;
    DigitInWord(occupancy, summary, at, digit);
    var bit := HighestBit(occupancy[word]);
    DigitInTick(occupancy, word, bit);
    forall t: nat | t < TICK_COUNT && Occupied(occupancy, t)
      ensures t <= word * 64 + bit
    {
      HighestBound(occupancy, summary, at, t);
      HighestDigits(t, at, digit, bit);
    }
  }

  /** In the first non-zero summary word, counting trailing zeros twice finds the lowest tick. */
  lemma LowestInWord(occupancy: seq<Word>, summary: seq<Word>, at: nat)
    requires SummaryOk(occupancy, summary) && at < SUMMARY_WORDS && summary[at] != 0
    requires forall k :: 0 <= k < at ==> summary[k] == 0
    ensures var word := at * 64 + LowestBit(summary[at]);
            && word < OCCUPANCY_WORDS && occupancy[word] != 0
            && var best := word * 64 + LowestBit(occupancy[word]);
               && best < TICK_COUNT && Occupied(occupancy, best)
               && forall t: nat :: t < TICK_COUNT && Occupied(occupancy, t) ==> t >= best
  {
    hide Bit, LowestBit, HighestBit;
    var digit := LowestBit(summary[at]);
    var word := at * 64 + digit;
    DigitInWord(occupancy, summary, at, digit);
    var bit := LowestBit(occupancy[word]);
    DigitInTick(occupancy, word, bit);
    forall t: nat | t < TICK_COUNT && Occupied(occupancy, t)
      ensures t >= word * 64 + bit
    {
      LowestBound(occupancy, summary, at, t);
      LowestDigits(t, at, digit, bit);
    }
  }

  lemma HighestBound(occupancy: seq<Word>, summary: seq<Word>, at: nat, t: nat)
    requires SummaryOk(occupancy, summary) && at < SUMMARY_WORDS && summary[at] != 0
    requires forall k :: at < k < SUMMARY_WORDS ==> summary[k] == 0
    requires t < TICK_COUNT && Occupied(occupancy, t)
    ensures t / 64 / 64 <= at && (t / 64 / 64 == at ==> t / 64 % 64 <= HighestBit(summary[at]))
    ensures occupancy[t / 64] != 0 && t % 64 <= HighestBit(occupancy[t / 64])
  {
    hide Bit, LowestBit, HighestBit;
    NothingUnderZero(occupancy, summary, t);
  }

  lemma LowestBound(occupancy: seq<Word>, summary: seq<Word>, at: nat, t: nat)
    requires SummaryOk(occupancy, summary) && at < SUMMARY_WORDS && summary[at] != 0
    requires forall k :: 0 <= k < at ==> summary[k] == 0
    requires t < TICK_COUNT && Occupied(occupancy, t)
    ensures t / 64 / 64 >= at && (t / 64 / 64 == at ==> t / 64 % 64 >= LowestBit(summary[at]))
    ensures occupancy[t / 64] != 0 && t % 64 >= LowestBit(occupancy[t / 64])
  {
    hide Bit, LowestBit, HighestBit;
    NothingUnderZero(occupancy, summary, t);
  }

  lemma DigitInWord(occupancy: seq<Word>, summary: seq<Word>, at: nat, digit: nat)
    requires SummaryOk(occupancy, summary) && at < SUMMARY_WORDS && Bit(summary[at], digit)
    ensures digit < 64 && at * 64 + digit < OCCUPANCY_WORDS && occupancy[at * 64 + digit] != 0
  {
    hide Bit, LowestBit, HighestBit;
    BitBelow64(summary[at], digit);
    var word := at * 64 + digit;
    assert word / 64 == at && word % 64 == digit;
    assert Bit(summary[word / 64], word % 64) <==> occupancy[word] != 0;
  }

  lemma DigitInTick(occupancy: seq<Word>, word: nat, bit: nat)
    requires |occupancy| == OCCUPANCY_WORDS && word < OCCUPANCY_WORDS && Bit(occupancy[word], bit)
    ensures bit < 64 && word * 64 + bit < TICK_COUNT && Occupied(occupancy, word * 64 + bit)
  {
    hide Bit, LowestBit, HighestBit;
    BitBelow64(occupancy[word], bit);
    assert (word * 64 + bit) / 64 == word && (word * 64 + bit) % 64 == bit;
  }

  lemma HighestDigits(t: nat, at: nat, digit: nat, bit: nat)
    requires t / 64 / 64 <= at && digit < 64 && bit < 64
    requires t / 64 / 64 == at ==> t / 64 % 64 <= digit
    requires t / 64 == at * 64 + digit ==> t % 64 <= bit
    ensures t <= (at * 64 + digit) * 64 + bit
  {
  }

  lemma LowestDigits(t: nat, at: nat, digit: nat, bit: nat)
    requires t / 64 / 64 >= at && digit < 64 && bit < 64
    requires t / 64 / 64 == at ==> t / 64 % 64 >= digit
    requires t / 64 == at * 64 + digit ==> t % 64 >= bit
    ensures t >= (at * 64 + digit) * 64 + bit
  {
  }
}
