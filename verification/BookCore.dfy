/** The order book of one symbol as it is stored, with the pool its two sides share,
    the table that finds an order by client and client order id, and the two output queues. */
module BookCores {
  import opened Types
  import opened Words
  import opened PriceBands
  import opened HalfBooks
  import opened MemPools
  import opened LevelStore
  import opened PriceLevelArrays
  import Books
  import BookFacts
  import BookLaws

  // ----- the order id table -----

  /** client id -> (client order id -> pool slot). */
  type OrderTable = map<nat, map<nat, int>>

  function Lookup(table: OrderTable, key: Books.Key): Option<int> {
    if key.0 in table && key.1 in table[key.0] then Some(table[key.0][key.1]) else None
  }

  ghost predicate At(slots: seq<int>, orders: seq<Resting>, slot: int, key: Books.Key, id: nat) {
    |slots| == |orders| && exists i :: 0 <= i < |slots| && slots[i] == slot && Entry(orders[i], key, id)
  }

  predicate Entry(o: Resting, key: Books.Key, id: nat) {
    Books.KeyOf(o) == key && o.marketOrderId == id
  }

  /** The table stores exactly the keys of `index`, and each of its pointers leads to
      the resting order with that key and that market order id. */
  ghost predicate TableOk(table: OrderTable, index: map<Books.Key, nat>,
                          bidSlots: seq<int>, bids: seq<Resting>, askSlots: seq<int>, asks: seq<Resting>) {
    forall key :: (Lookup(table, key).Some? <==> key in index)
                  && (key in index ==>
                        || At(bidSlots, bids, Lookup(table, key).value, key, index[key])
                        || At(askSlots, asks, Lookup(table, key).value, key, index[key]))
  }

  lemma AtAfterInsert(slots: seq<int>, orders: seq<Resting>, p: nat, slot: int, x: Resting)
    requires |slots| == |orders| && p <= |slots|
    ensures var slots', orders' := slots[..p] + [slot] + slots[p..], orders[..p] + [x] + orders[p..];
            && At(slots', orders', slot, Books.KeyOf(x), x.marketOrderId)
            && forall s, key, id :: At(slots, orders, s, key, id) ==> At(slots', orders', s, key, id)
  {
    var slots', orders' := slots[..p] + [slot] + slots[p..], orders[..p] + [x] + orders[p..];
    assert slots'[p] == slot && Entry(orders'[p], Books.KeyOf(x), x.marketOrderId);
    forall s, key, id | At(slots, orders, s, key, id)
      ensures At(slots', orders', s, key, id)
    {
      var i :| 0 <= i < |slots| && slots[i] == s && Entry(orders[i], key, id);
      var k := if i < p then i else i + 1;
      assert slots'[k] == s && Entry(orders'[k], key, id);
    }
  }

  lemma AtAfterRemove(slots: seq<int>, orders: seq<Resting>, i: nat)
    requires |slots| == |orders| && i < |slots|
    ensures var slots', orders' := slots[..i] + slots[i + 1..], orders[..i] + orders[i + 1..];
            forall s, key, id :: At(slots, orders, s, key, id) && key != Books.KeyOf(orders[i])
                                 ==> At(slots', orders', s, key, id)
  {
    var slots', orders' := slots[..i] + slots[i + 1..], orders[..i] + orders[i + 1..];
    forall s, key, id | At(slots, orders, s, key, id) && key != Books.KeyOf(orders[i])
      ensures At(slots', orders', s, key, id)
    {
      var j :| 0 <= j < |slots| && slots[j] == s && Entry(orders[j], key, id);
      var k := if j < i then j else j - 1;
      assert slots'[k] == s && Entry(orders'[k], key, id);
    }
  }

  lemma AtAfterFill(slots: seq<int>, h: Half, i: nat, quantity: nat)
    requires |slots| == |h.orders| && i < |slots| && quantity <= h.orders[i].quantity
    ensures forall s, key, id :: At(slots, h.orders, s, key, id) ==>
              At(slots, FillAt(h, i, quantity).orders, s, key, id)
  {
    var orders' := FillAt(h, i, quantity).orders;
    forall s, key, id | At(slots, h.orders, s, key, id)
      ensures At(slots, orders', s, key, id)
    {
      var j :| 0 <= j < |slots| && slots[j] == s && Entry(h.orders[j], key, id);
      assert slots[j] == s && Entry(orders'[j], key, id);
    }
  }

  // ----- two sides over one pool -----

  /** The two sides never share a node, so a change to the nodes of one side leaves the
      other side as it was. */
  lemma OtherSideKept(side: Side, other: Side, store: Store, store': Store,
                      levels: seq<FIFOLevel>, slots: seq<int>, h: Half,
                      otherLevels: seq<FIFOLevel>, otherSlots: seq<int>, otherHalf: Half)
    requires side != other && |store'| == |store|
    requires Linked(side, store, levels, slots, h) && Linked(other, store, otherLevels, otherSlots, otherHalf)
    requires forall s :: 0 <= s < |store| && store[s].Live? && s !in slots ==> store'[s] == store[s]
    ensures Linked(other, store', otherLevels, otherSlots, otherHalf)
  {
    forall s | s in otherSlots
      ensures IsNode(store, s) && s !in slots
    {
      NodeSide(other, store, otherLevels, otherSlots, otherHalf, s);
      if s in slots {
        NodeSide(side, store, levels, slots, h, s);
      }
    }
    LinkedFrame(other, store, store', otherLevels, otherSlots, otherHalf);
  }

  lemma NodeSide(side: Side, store: Store, levels: seq<FIFOLevel>, slots: seq<int>, h: Half, s: int)
    requires Linked(side, store, levels, slots, h) && s in slots
    ensures IsNode(store, s) && store[s].value.level.LevelOf? && store[s].value.level.side == side
  {
    var i :| 0 <= i < |slots| && slots[i] == s;
    assert NodeOk(side, store, slots, h.orders, i);
  }

  class BookCore {
    const cfg: Books.Config
    const pool: MemPool<OrderNode>
    const bids: PriceLevels
    const asks: PriceLevels
    var orders: OrderTable
    var nextMarketOrderId: nat
    var responses: seq<Response>
    var updates: seq<Update>

    /** The order id table as a value: market order ids instead of pool slots. */
    ghost var index: map<Books.Key, nat>

    ghost predicate Separate() {
      && bids != asks && bids.side == BUY && asks.side == SELL
      && bids.pool == pool && asks.pool == pool
      && bids.levels != asks.levels
      && bids.summary != asks.summary && bids.summary != asks.occupancy
      && bids.occupancy != asks.summary && bids.occupancy != asks.occupancy
    }

    ghost function SideRepr(): set<object> {
      {pool, pool.storage, bids, bids.summary, bids.occupancy, bids.levels,
       asks, asks.summary, asks.occupancy, asks.levels}
    }

    /** Both sides are whole, and together they hold every object of the pool that is in use. */
    ghost predicate Sides()
      reads SideRepr()
    {
      && Separate() && pool.Valid() && bids.Valid() && asks.Valid()
      && pool.inUse == |bids.slots| + |asks.slots|
    }

    ghost predicate Indexed()
      reads this`orders, this`index, bids, asks
    {
      TableOk(orders, index, bids.slots, bids.half.orders, asks.slots, asks.half.orders)
    }

    /** The whole state as a value. */
    ghost function View(): Books.Book
      reads this`index, this`nextMarketOrderId, bids, asks
    {
      Books.Book(bids.half, asks.half, index, nextMarketOrderId)
    }

    ghost predicate Valid()
      reads this, SideRepr()
    {
      && Sides() && Indexed()
      && Books.Invariant(View())
      && cfg.band.IsValid()
      && pool.storage.Length == MAX_ORDER_IDS
    }

    constructor (cfg: Books.Config)
      requires cfg.band.IsValid()
      ensures Valid() && this.cfg == cfg && View() == Books.EmptyBook()
      ensures responses == [] && updates == [] && fresh(SideRepr())
    {
      hide Linked, WellFormed, BitmapOk, Books.Invariant, MemPool.Valid, PriceLevels.Valid;
      this.cfg := cfg;
      var nodes := new MemPool<OrderNode>(MAX_ORDER_IDS);
      var buy := new PriceLevels(BUY, nodes);
      var sell := new PriceLevels(SELL, nodes);
      pool, bids, asks := nodes, buy, sell;
      orders, index, nextMarketOrderId := map[], map[], 1;
      responses, updates := [], [];
      new;
      BlankValid();
    }

    lemma BlankValid()
      requires Sides() && cfg.band.IsValid()
      requires pool.storage.Length == MAX_ORDER_IDS && nextMarketOrderId == 1
      requires bids.half == EmptyHalf() == asks.half && orders == map[] && index == map[]
      ensures Valid() && View() == Books.EmptyBook()
    {
      hide Books.Invariant;
      BookFacts.EmptyInvariant();
    }

    function LevelsOf(side: Direction): PriceLevels {
      if side == BUY then bids else asks
    }

    /** The node `order` stores the resting order with this key, number `i` of its side. */
    ghost predicate RestsAt(key: Books.Key, order: int, side: Direction, i: nat)
      reads this`index, SideRepr()
    {
      var own := LevelsOf(side);
      && |own.slots| == |own.half.orders| && i < |own.slots| && own.slots[i] == order
      && key in index && Entry(own.half.orders[i], key, index[key])
      && pool.IsLive(order) && Holds(pool.Get(order), own.half.orders[i], side)
      && 0 <= own.half.orders[i].tick < TICK_COUNT
    }

    /** The resting order of a client under one of its ids: null exactly when the index has no entry
        for it, and else the node of the resting order with that key. */
    method FindOrder(clientId: nat, clientOrderId: nat) returns (order: int, ghost on: Direction, ghost i: nat)
      requires Sides() && Indexed()
      ensures order == NULL <==> (clientId, clientOrderId) !in index
      ensures order != NULL ==> RestsAt((clientId, clientOrderId), order, on, i)
    {
      hide Linked, WellFormed, BitmapOk, MemPool.Valid, PriceLevels.Valid;
      order := NULL;
      if clientId in orders && clientOrderId in orders[clientId] {
        order := orders[clientId][clientOrderId];
      }
      on, i := BUY, 0;
      ghost var key := (clientId, clientOrderId);
      assert Lookup(orders, key).Some? <==> key in index;
      NoNullEntries(key);
      if order != NULL {
        on, i := Locate(key, order);
      }
    }

    method IndexOrder(clientId: nat, clientOrderId: nat, order: int)
      modifies this`orders
      ensures forall key :: Lookup(orders, key) ==
                            if key == (clientId, clientOrderId) then Some(order) else Lookup(old(orders), key)
    {
      if clientId !in orders {
        orders := orders[clientId := map[]];
      }
      var table: map<nat, int> := orders[clientId];
      table := table[clientOrderId := order];
      orders := orders[clientId := table];
    }

    method UnindexOrder(clientId: nat, clientOrderId: nat)
      modifies this`orders
      ensures forall key :: Lookup(orders, key) ==
                            if key == (clientId, clientOrderId) then None else Lookup(old(orders), key)
    {
      if clientId in orders {
        var table: map<nat, int> := orders[clientId] - {clientOrderId};
        orders := orders[clientId := table];
      }
    }

    // ----- operations of one side, seen from the whole book -----

    method RestOn(side: Direction, tick: int, clientId: nat, clientOrderId: nat, id: nat, quantity: nat)
      returns (order: int)
      requires Sides() && !pool.Exhausted() && 0 <= tick < TICK_COUNT
      modifies SideRepr()
      ensures Sides() && pool.inUse == old(pool.inUse) + 1
      ensures var own := LevelsOf(side);
              && own.half == Insert(side, old(own.half), tick, clientId, clientOrderId, id, quantity)
              && var p := InsertPos(side, old(own.half).orders, tick);
                 own.slots == old(own.slots)[..p] + [order] + old(own.slots)[p..]
      ensures var other := LevelsOf(Opposite(side)); other.half == old(other.half) && other.slots == old(other.slots)
    {
      hide Linked, WellFormed, BitmapOk, InsertPos, Insert, MemPool.Valid;
      var own, other := LevelsOf(side), LevelsOf(Opposite(side));
      ghost var store, lvs, slots, h := pool.storage[..], own.levels[..], own.slots, own.half;
      SlotPerOrder(side);
      order := own.AddOrder(tick, clientId, clientOrderId, id, quantity);
      assert |own.slots| == |slots| + 1;
      assert forall s :: 0 <= s < |store| && store[s].Live? && s !in slots ==> pool.storage[..][s] == store[s];
      OtherSideKept(side, Opposite(side), store, pool.storage[..], lvs, slots, h,
                    other.levels[..], other.slots, other.half);
    }

    method FillOn(side: Direction, order: int, quantity: nat, ghost i: nat)
      requires Sides() && i < |LevelsOf(side).slots| == |LevelsOf(side).half.orders|
      requires order == LevelsOf(side).slots[i] && quantity <= LevelsOf(side).half.orders[i].quantity
      modifies SideRepr()
      ensures Sides() && pool.inUse == old(pool.inUse)
      ensures var own := LevelsOf(side);
              own.half == FillAt(old(own.half), i, quantity) && own.slots == old(own.slots)
      ensures var other := LevelsOf(Opposite(side)); other.half == old(other.half) && other.slots == old(other.slots)
      ensures pool.IsLive(order) && Holds(pool.Get(order), LevelsOf(side).half.orders[i], side)
    {
      hide Linked, WellFormed, BitmapOk, MemPool.Valid;
      var own, other := LevelsOf(side), LevelsOf(Opposite(side));
      ghost var store, lvs, slots, h := pool.storage[..], own.levels[..], own.slots, own.half;
      own.ApplyFill(order, quantity, i);
      assert forall s :: 0 <= s < |store| && store[s].Live? && s !in slots ==> pool.storage[..][s] == store[s];
      OtherSideKept(side, Opposite(side), store, pool.storage[..], lvs, slots, h,
                    other.levels[..], other.slots, other.half);
      NeighboursAreNodes(side, pool.storage[..], own.levels[..], own.slots, own.half, i);
      assert pool.storage[..][order] == pool.storage[order];
    }

    method RemoveOn(side: Direction, order: int, ghost i: nat)
      requires Sides() && i < |LevelsOf(side).slots| == |LevelsOf(side).half.orders|
      requires order == LevelsOf(side).slots[i]
      modifies SideRepr()
      ensures Sides() && pool.inUse == old(pool.inUse) - 1
      ensures var own := LevelsOf(side);
              && OrderFits(old(own.half).orders[i], old(own.half).nextPriority)
              && own.half == RemoveAt(old(own.half), i)
              && own.slots == old(own.slots)[..i] + old(own.slots)[i + 1..]
      ensures var other := LevelsOf(Opposite(side)); other.half == old(other.half) && other.slots == old(other.slots)
    {
      hide Linked, BitmapOk, MemPool.Valid, HasTick, Sorted;
      var own, other := LevelsOf(side), LevelsOf(Opposite(side));
      ghost var store, lvs, slots, h := pool.storage[..], own.levels[..], own.slots, own.half;
      own.RemoveOrder(order, i);
      assert forall s :: 0 <= s < |store| && store[s].Live? && s !in slots ==> pool.storage[..][s] == store[s];
      OtherSideKept(side, Opposite(side), store, pool.storage[..], lvs, slots, h,
                    other.levels[..], other.slots, other.half);
    }

    method SendClientResponse(response: Response)
      modifies this`responses
      ensures responses == old(responses) + [response]
    {
      responses := responses + [response];
    }

    method SendMarketUpdate(update: Update)
      modifies this`updates
      ensures updates == old(updates) + [update]
    {
      updates := updates + [update];
    }

    /** The node behind a listed order. */
    lemma ListedNode(side: Direction, i: nat, order: int)
      requires Sides() && i < |LevelsOf(side).slots| && order == LevelsOf(side).slots[i]
      ensures pool.IsLive(order) && |LevelsOf(side).half.orders| == |LevelsOf(side).slots|
      ensures Holds(pool.Get(order), LevelsOf(side).half.orders[i], side)
      ensures 0 <= LevelsOf(side).half.orders[i].tick < TICK_COUNT
    {
      var own := LevelsOf(side);
      NeighboursAreNodes(side, pool.storage[..], own.levels[..], own.slots, own.half, i);
      assert pool.storage[..][order] == pool.storage[order];
    }

    // ----- matching -----

    /** The two reports and two market updates of one fill; `maker` is its node after the fill. */
    method Report(taker: Books.Taker, maker: OrderNode, price: int, executed: nat, left: nat)
      modifies this`responses, this`updates
      ensures responses == old(responses) +
              [Response(FILLED, taker.clientId, cfg.symbol, taker.clientOrderId, taker.marketOrderId,
                        taker.side, price, executed, left),
               Response(FILLED, maker.clientId, cfg.symbol, maker.clientOrderId, maker.marketOrderId,
                        Opposite(taker.side), price, executed, maker.remaining)]
      ensures updates == old(updates) +
              [Update(TRADE, cfg.symbol, maker.marketOrderId, Opposite(taker.side), price, executed, 0),
               if maker.remaining == 0
               then Update(UpdateType.CANCEL, cfg.symbol, maker.marketOrderId, Opposite(taker.side), price, 0, 0)
               else Update(MODIFY, cfg.symbol, maker.marketOrderId, Opposite(taker.side), price, maker.remaining,
                           maker.priority)]
    {
      var makerSide := Opposite(taker.side);
      SendClientResponse(Response(FILLED, taker.clientId, cfg.symbol, taker.clientOrderId, taker.marketOrderId,
                                  taker.side, price, executed, left));
      SendClientResponse(Response(FILLED, maker.clientId, cfg.symbol, maker.clientOrderId, maker.marketOrderId,
                                  makerSide, price, executed, maker.remaining));
      SendMarketUpdate(Update(TRADE, cfg.symbol, maker.marketOrderId, makerSide, price, executed, 0));
      if maker.remaining == 0 {
        SendMarketUpdate(Update(UpdateType.CANCEL, cfg.symbol, maker.marketOrderId, makerSide, price, 0, 0));
      } else {
        SendMarketUpdate(Update(MODIFY, cfg.symbol, maker.marketOrderId, makerSide, price, maker.remaining,
                                maker.priority));
      }
    }

    /** Takes an order out of the table and out of the book. */
    method Drop(side: Direction, node: OrderNode, order: int, ghost i: nat)
      requires Sides() && Indexed() && i < |LevelsOf(side).slots| == |LevelsOf(side).half.orders|
      requires order == LevelsOf(side).slots[i] && Holds(node, LevelsOf(side).half.orders[i], side)
      modifies this`orders, this`index, SideRepr()
      ensures Sides() && Indexed() && pool.inUse == old(pool.inUse) - 1
      ensures var own := LevelsOf(side);
              && OrderFits(old(own.half).orders[i], old(own.half).nextPriority)
              && own.half == RemoveAt(old(own.half), i)
              && index == old(index) - {Books.KeyOf(old(own.half).orders[i])}
      ensures LevelsOf(Opposite(side)).half == old(LevelsOf(Opposite(side)).half)
    {
      hide Linked, WellFormed, BitmapOk, MemPool.Valid, PriceLevels.Valid, HasTick, TableOk;
      ghost var own, other := LevelsOf(side), LevelsOf(Opposite(side));
      ghost var h, slots, table, idx := own.half, own.slots, orders, index;
      UnindexOrder(node.clientId, node.clientOrderId);
      index := index - {(node.clientId, node.clientOrderId)};
      RemoveOn(side, order, i);
      TableAfterRemove(side == BUY, table, idx, slots, h, i, orders, other.slots, other.half.orders);
    }

    /** The taker of the moment against the order at the head of the best level. */
    method Execute(taker: Books.Taker, maker: int, price: int) returns (left: nat)
      requires Sides() && Indexed()
      requires var makers := LevelsOf(Opposite(taker.side));
               && |makers.slots| == |makers.half.orders| > 0 && maker == makers.slots[0]
               && |makers.half.nextPriority| == TICK_COUNT && 0 <= makers.half.orders[0].tick < TICK_COUNT
               && price == cfg.band.ToPrice(makers.half.orders[0].tick)
      modifies this`orders, this`index, this`responses, this`updates, SideRepr()
      ensures Sides() && Indexed() && pool.inUse <= old(pool.inUse)
      ensures var makers := LevelsOf(Opposite(taker.side));
              var m := Books.FillFirst(cfg, taker, old(makers.half), old(index));
              && left == m.left && makers.half == m.half && index == m.index
              && responses == old(responses) + m.responses && updates == old(updates) + m.updates
      ensures LevelsOf(taker.side).half == old(LevelsOf(taker.side).half)
    {
      hide Linked, WellFormed, BitmapOk, MemPool.Valid, PriceLevels.Valid, HasTick, TableOk, RemoveAt;
      var makerSide := Opposite(taker.side);
      ghost var makers, other := LevelsOf(makerSide), LevelsOf(taker.side);
      ghost var h, slots := makers.half, makers.slots;
      ListedNode(makerSide, 0, maker);
      var executed := Min(taker.quantity, pool.Get(maker).remaining);
      left := taker.quantity - executed;
      FillOn(makerSide, maker, executed, 0);
      var node := pool.Get(maker);
      Report(taker, node, price, executed, left);
      TableAfterFill(makerSide == BUY, orders, index, slots, h, 0, executed, other.slots, other.half.orders);
      if node.remaining == 0 {
        Drop(makerSide, node, maker, 0);
      }
    }

    /** The head of a level that nothing beats is the first order of the side. */
    lemma LevelHead(side: Direction, tick: int)
      requires Sides() && 0 <= tick < TICK_COUNT && NoneBetter(side, LevelsOf(side).half.orders, tick)
      ensures var own := LevelsOf(side);
              && |own.slots| == |own.half.orders| && own.levels.Length == TICK_COUNT
              && (own.levels[tick].first == NULL <==> !HasTick(own.half.orders, tick))
              && (own.levels[tick].first != NULL ==>
                    && own.half.orders != [] && own.half.orders[0].tick == tick
                    && own.levels[tick].first == own.slots[0])
    {
      var own := LevelsOf(side);
      assert LevelOk(own.levels[..][tick], own.half, tick);
      if HasTick(own.half.orders, tick) {
        var k :| 0 <= k < |own.half.orders| && own.half.orders[k].tick == tick;
        assert k > 0 ==> Before(side, own.half.orders[0], own.half.orders[k]);
        assert EndsOk(own.levels[..], own.slots, own.half.orders, 0);
      }
    }

    /** Matches the taker: levels from the best one on, orders of a level from its head on. */
    method Match(taker: Books.Taker) returns (left: nat)
      requires Sides() && Indexed()
      requires Positive(LevelsOf(Opposite(taker.side)).half.orders)
      requires Books.TicksOk(LevelsOf(Opposite(taker.side)).half)
      requires cfg.band.IsValid()
      modifies this`orders, this`index, this`responses, this`updates, SideRepr()
      ensures Sides() && Indexed() && pool.inUse <= old(pool.inUse)
      ensures var makers := LevelsOf(Opposite(taker.side));
              var m := Books.Match(cfg, taker, old(makers.half), old(index));
              && left == m.left && makers.half == m.half && index == m.index
              && responses == old(responses) + m.responses && updates == old(updates) + m.updates
              && BookLaws.MatchHonoured(cfg, taker, old(makers.half).orders, old(index), m)
      ensures LevelsOf(taker.side).half == old(LevelsOf(taker.side).half)
    {
      hide Linked, WellFormed, BitmapOk, MemPool.Valid, TableOk, Books.Match, Books.FillFirst, HasTick, Positive,
        BookLaws.MatchHonoured;
      var makerSide := Opposite(taker.side);
      var makers := LevelsOf(makerSide);
      ghost var goal := Books.Match(cfg, taker, makers.half, index);
      BookLaws.MatchIsHonoured(cfg, taker, makers.half, index);
      left := taker.quantity;
      assert responses + goal.responses == responses + goal.responses;
      while left > 0
        invariant Sides() && Indexed() && pool.inUse <= old(pool.inUse)
        invariant Positive(makers.half.orders) && Books.TicksOk(makers.half)
        invariant Toward(cfg, taker.(quantity := left), makers.half, index, old(responses), responses, old(updates),
                         updates, goal)
        invariant LevelsOf(taker.side).half == old(LevelsOf(taker.side).half)
        decreases left
      {
        var makerTick := makers.bestTick;
        if makerTick == INVALID_TICK {
          assert makers.half.orders == [];
          break;
        }
        BestTickLeads(makerSide);
        if !Books.Crosses(taker.side, taker.limitTick, makerTick) {
          break;
        }
        var executionPrice := cfg.band.ToPrice(makerTick);
        ghost var before := left;
        while left > 0
          invariant Sides() && Indexed() && pool.inUse <= old(pool.inUse)
          invariant Positive(makers.half.orders) && Books.TicksOk(makers.half)
          invariant Toward(cfg, taker.(quantity := left), makers.half, index, old(responses), responses,
                           old(updates), updates, goal)
          invariant LevelsOf(taker.side).half == old(LevelsOf(taker.side).half)
          invariant NoneBetter(makerSide, makers.half.orders, makerTick)
          invariant left < before || (left == before && HasTick(makers.half.orders, makerTick))
          decreases left
        {
          LevelHead(makerSide, makerTick);
          var maker := makers.levels[makerTick].first;
          if maker == NULL {
            break;
          }
          ghost var t, h, idx, r, u := taker.(quantity := left), makers.half, index, responses, updates;
          left := Execute(taker.(quantity := left), maker, executionPrice);
          TowardStep(cfg, t, h, idx, old(responses), r, old(updates), u, goal, makerTick);
        }
      }
      TowardEnd(cfg, taker.(quantity := left), makers.half, index, old(responses), responses, old(updates),
                updates, goal);
    }

    lemma BestTickLeads(side: Direction)
      requires Sides() && LevelsOf(side).bestTick != INVALID_TICK
      ensures var own := LevelsOf(side);
              && own.half.orders != [] && own.bestTick == own.half.orders[0].tick && 0 <= own.bestTick < TICK_COUNT
              && NoneBetter(side, own.half.orders, own.bestTick) && HasTick(own.half.orders, own.bestTick)
    {
      var own := LevelsOf(side);
      forall i | 0 <= i < |own.half.orders|
        ensures !Better(side, own.half.orders[i].tick, own.bestTick)
      {
        assert i > 0 ==> Before(side, own.half.orders[0], own.half.orders[i]);
      }
    }

    // ----- requests -----

    /** Lets the rest of an order queue on its own side and makes it findable. */
    method RestRemainder(side: Direction, tick: int, clientId: nat, clientOrderId: nat, id: nat, quantity: nat)
      requires Sides() && Indexed() && !pool.Exhausted() && 0 <= tick < TICK_COUNT
      requires |LevelsOf(side).half.nextPriority| == TICK_COUNT
      modifies this`orders, this`index, this`updates, SideRepr()
      ensures Sides() && Indexed() && pool.inUse == old(pool.inUse) + 1
      ensures var own := LevelsOf(side);
              && own.half == Insert(side, old(own.half), tick, clientId, clientOrderId, id, quantity)
              && index == old(index)[(clientId, clientOrderId) := id]
              && updates == old(updates) + [Books.Rested(cfg, side,
                   Resting(clientId, clientOrderId, id, tick, quantity, old(own.half).nextPriority[tick]))]
      ensures LevelsOf(Opposite(side)).half == old(LevelsOf(Opposite(side)).half)
    {
      hide Linked, WellFormed, BitmapOk, MemPool.Valid, PriceLevels.Valid, HasTick, TableOk, Lookup, InsertPos,
        Sides, Insert, Holds;
      ghost var own, other := LevelsOf(side), LevelsOf(Opposite(side));
      ghost var h, slots, table, idx := own.half, own.slots, orders, index;
      ghost var p := InsertPos(side, h.orders, tick);
      ghost var x := Resting(clientId, clientOrderId, id, tick, quantity, h.nextPriority[tick]);
      SlotPerOrder(side);
      var order := RestOn(side, tick, clientId, clientOrderId, id, quantity);
      RestedNode(side, h, slots, x, order);
      IndexOrder(clientId, clientOrderId, order);
      index := index[(clientId, clientOrderId) := id];
      SendMarketUpdate(Update(ADD, cfg.symbol, id, side, cfg.band.ToPrice(tick), quantity, pool.Get(order).priority));
      TableAfterInsert(side == BUY, table, idx, slots, h.orders, p, order, x, orders, other.slots, other.half.orders);
    }

    /** The node of an order that has just been inserted. */
    lemma RestedNode(side: Direction, h: Half, slots: seq<int>, x: Resting, order: int)
      requires Sides() && |slots| == |h.orders| && |h.nextPriority| == TICK_COUNT && 0 <= x.tick < TICK_COUNT
      requires x.priority == h.nextPriority[x.tick]
      requires LevelsOf(side).half
            == Insert(side, h, x.tick, x.clientId, x.clientOrderId, x.marketOrderId, x.quantity)
      requires var p := InsertPos(side, h.orders, x.tick); LevelsOf(side).slots == slots[..p] + [order] + slots[p..]
      ensures var p := InsertPos(side, h.orders, x.tick);
              LevelsOf(side).half.orders == h.orders[..p] + [x] + h.orders[p..]
      ensures pool.IsLive(order) && pool.Get(order).priority == x.priority
    {
      hide Sides, InsertPos;
      ListedNode(side, InsertPos(side, h.orders, x.tick), order);
    }

    lemma RoomForRest()
      requires Sides() && |bids.half.orders| + |asks.half.orders| < pool.storage.Length
      ensures !pool.Exhausted()
    {
      HasRoom(pool);
    }

    lemma SlotPerOrder(side: Direction)
      requires Sides()
      ensures |LevelsOf(side).slots| == |LevelsOf(side).half.orders|
    {
    }

    /** What the new order leaves on the book, once those it fills are gone, fits the pool. The
        assertion that the pool is not exhausted holds exactly then. */
    ghost predicate FindsRoom(r: Books.Request)
      requires Valid() && r.New? && Books.Acceptable(cfg, r)
      reads this, SideRepr()
    {
      BookFacts.InvariantGivesBookTicks(View());
      var b := Books.Add(cfg, View(), r).book;
      |b.bids.orders| + |b.asks.orders| <= MAX_ORDER_IDS
    }

    /** There is room whenever a slot is left before the call. */
    lemma RoomBefore(r: Books.Request)
      requires Valid() && r.New? && Books.Acceptable(cfg, r)
      requires pool.inUse < MAX_ORDER_IDS
      ensures FindsRoom(r)
    {
      hide Linked, WellFormed, BitmapOk, MemPool.Valid, PriceLevels.Valid, Books.Invariant, Books.Add, Indexed;
      BookFacts.InvariantGivesBookTicks(View());
      BookFacts.AddCounts(cfg, View(), r);
      SlotPerOrder(BUY);
      SlotPerOrder(SELL);
    }

    /** The stored total of a level never comes near the width of its field. */
    lemma LevelTotalFits(side: Direction, tick: int)
      requires Valid() && 0 <= tick < TICK_COUNT
      ensures LevelsOf(side).levels.Length == TICK_COUNT
      ensures LevelsOf(side).levels[tick].total < 0x10_0000_0000_0000
    {
      hide WellFormed, SumAt, NodesOk, BitmapOk, Books.IndexSound, Indexed, MemPools.FreeChain;
      var own := LevelsOf(side);
      InUseCountsLiveSlots(pool);
      assert pool.Available() >= 0;
      assert LevelOk(own.levels[..][tick], own.half, tick);
      SumAtBound(own.half.orders, tick);
    }

    /** A new order is accepted and matched, and what is left of it rests. */
    method Add(clientId: nat, clientOrderId: nat, side: Direction, price: int, quantity: nat)
      requires Valid() && Books.Acceptable(cfg, Books.New(clientId, clientOrderId, side, price, quantity))
      requires FindsRoom(Books.New(clientId, clientOrderId, side, price, quantity))
      modifies this, SideRepr()
      ensures Valid() && Books.BookTicksOk(old(View()))
      ensures var done := Books.Add(cfg, old(View()), Books.New(clientId, clientOrderId, side, price, quantity));
              && View() == done.book
              && responses == old(responses) + done.responses && updates == old(updates) + done.updates
              && BookLaws.NewHonoured(cfg, old(View()), Books.New(clientId, clientOrderId, side, price, quantity), done)
    {
      hide Linked, WellFormed, BitmapOk, MemPool.Valid, PriceLevels.Valid, HasTick, TableOk, Books.Match,
        Books.Apart, Books.IndexSound, Books.IdsOk, InsertPos, Sides, Indexed,
        BookLaws.NewHonoured, BookLaws.MatchHonoured;
      ghost var b, request := View(), Books.New(clientId, clientOrderId, side, price, quantity);
      BookFacts.InvariantGivesBookTicks(b);
      BookFacts.AddKeeps(cfg, b, request);
      BookLaws.NewIsHonoured(cfg, b, request);
      PriceOfTick(cfg.band, price);
      var limitTick := cfg.band.ToTick(price);
      var marketOrderId := nextMarketOrderId;
      nextMarketOrderId := nextMarketOrderId + 1;
      SendClientResponse(Response(ACCEPTED, clientId, cfg.symbol, clientOrderId, marketOrderId, side, price, 0,
                                  quantity));
      var remaining := Match(Books.Taker(clientId, clientOrderId, marketOrderId, side, limitTick, quantity));
      if remaining > 0 {
        RoomForRest();
        RestRemainder(side, limitTick, clientId, clientOrderId, marketOrderId, remaining);
      }
    }

    method Cancel(clientId: nat, clientOrderId: nat)
      requires Valid()
      modifies this, SideRepr()
      ensures Valid() && Books.BookTicksOk(old(View()))
      ensures var done := Books.CancelOrder(cfg, old(View()), clientId, clientOrderId);
              && View() == done.book
              && responses == old(responses) + done.responses && updates == old(updates) + done.updates
              && BookLaws.CancelHonoured(cfg, old(View()), (clientId, clientOrderId), done)
    {
      hide Linked, MemPool.Valid, PriceLevels.Valid, Books.Invariant, Books.CancelOrder, Books.RemoveFrom, RestsAt,
        Sides, Indexed, BookLaws.CancelHonoured;
      ghost var b, key := View(), (clientId, clientOrderId);
      BookFacts.InvariantGivesBookTicks(b);
      BookLaws.CancelIsHonoured(cfg, b, key);
      ghost var side: Direction, i: nat;
      var order;
      order, side, i := FindOrder(clientId, clientOrderId);
      if order == NULL {
        CancelFindsNone(cfg, b, key);
        SendClientResponse(Response(CANCEL_REJECTED, clientId, cfg.symbol, clientOrderId, 0, NoSide, 0, 0, 0));
        return;
      }
      CancelFinds(key, order, side, i);
      Withdraw(clientId, clientOrderId, order, side, i);
    }

    /** The market order id in the index leads the cancel to the order the table points to. */
    lemma CancelFinds(key: Books.Key, order: int, side: Direction, i: nat)
      requires Books.Invariant(View()) && Books.BookTicksOk(View()) && Sides() && RestsAt(key, order, side, i)
      ensures i < |Books.HalfOf(View(), side).orders|
      ensures var done := Books.RemoveFrom(cfg, View(), side, i);
              Books.CancelOrder(cfg, View(), key.0, key.1) == done && Books.Invariant(done.book)
    {
      hide Books.Invariant, Books.CancelOrder, Books.RemoveFrom, PriceLevels.Valid, MemPool.Valid;
      CancelLeads(cfg, View(), key, side, i);
      BookFacts.RemoveKeeps(cfg, View(), side, i);
    }

    /** What the node of a resting order says about it. */
    lemma RestingNode(key: Books.Key, order: int, side: Direction, i: nat)
      requires Sides() && RestsAt(key, order, side, i)
      ensures var own := LevelsOf(side);
              && i < |own.slots| == |own.half.orders| && own.slots[i] == order && pool.IsLive(order)
              && Books.KeyOf(own.half.orders[i]) == key && 0 <= own.half.orders[i].tick < TICK_COUNT
              && Holds(pool.Get(order), own.half.orders[i], side)
      ensures bids.Owns(pool.Get(order).level) <==> side == BUY
    {
      hide PriceLevels.Valid, MemPool.Valid;
    }

    /** Reports and removes a resting order; side and price come from its level. */
    method Withdraw(clientId: nat, clientOrderId: nat, order: int, ghost on: Direction, ghost i: nat)
      requires Sides() && Indexed()
      requires RestsAt((clientId, clientOrderId), order, on, i) && Books.BookTicksOk(View())
      modifies this`orders, this`index, this`responses, this`updates, SideRepr()
      ensures Sides() && Indexed() && pool.inUse < old(pool.inUse)
      ensures var done := Books.RemoveFrom(cfg, old(View()), on, i);
              && View() == done.book
              && responses == old(responses) + done.responses && updates == old(updates) + done.updates
    {
      hide Linked, WellFormed, BitmapOk, MemPool.Valid, PriceLevels.Valid, HasTick, TableOk, RemoveAt, Indexed, Lookup,
        Sides, Separate, RestsAt;
      RestingNode((clientId, clientOrderId), order, on, i);
      var node := pool.Get(order);
      var side: Direction := if bids.Owns(node.level) then BUY else SELL;
      var price := cfg.band.ToPrice(LevelsOf(side).IndexOf(node.level));
      SendClientResponse(Response(CANCELED, clientId, cfg.symbol, clientOrderId, node.marketOrderId, side, price, 0,
                                  node.remaining));
      SendMarketUpdate(Update(UpdateType.CANCEL, cfg.symbol, node.marketOrderId, side, price, 0, 0));
      Drop(side, node, order, i);
    }

    lemma NoNullEntries(key: Books.Key)
      requires Sides() && Indexed()
      ensures Lookup(orders, key) != Some(NULL)
    {
      if Lookup(orders, key) == Some(NULL) {
        var side, i := Locate(key, NULL);
      }
    }

    /** The table leads to a node of one of the sides, with the key it was asked for. */
    lemma Locate(key: Books.Key, order: int) returns (side: Direction, i: nat)
      requires Sides() && Indexed() && Lookup(orders, key) == Some(order)
      ensures RestsAt(key, order, side, i)
    {
      hide Linked, WellFormed, BitmapOk, MemPool.Valid;
      assert key in index;
      side := if At(bids.slots, bids.half.orders, order, key, index[key]) then BUY else SELL;
      var own := LevelsOf(side);
      assert At(own.slots, own.half.orders, order, key, index[key]);
      i :| 0 <= i < |own.slots| && own.slots[i] == order && Entry(own.half.orders[i], key, index[key]);
      ListedNode(side, i, order);
    }
  }

  lemma CancelLeads(cfg: Books.Config, b: Books.Book, key: Books.Key, side: Direction, i: nat)
    requires Books.Invariant(b) && Books.BookTicksOk(b) && key in b.index
    requires i < |Books.HalfOf(b, side).orders| && Entry(Books.HalfOf(b, side).orders[i], key, b.index[key])
    ensures Books.CancelOrder(cfg, b, key.0, key.1) == Books.RemoveFrom(cfg, b, side, i)
  {
    hide WellFormed, Books.IndexSound, Positive, RemoveAt;
    var id := b.index[key];
    var p, q := Books.Position(b.bids.orders, id), Books.Position(b.asks.orders, id);
  }

  lemma CancelFindsNone(cfg: Books.Config, b: Books.Book, key: Books.Key)
    requires Books.BookTicksOk(b) && key !in b.index
    ensures Books.CancelOrder(cfg, b, key.0, key.1) == Books.Outcome(b, [Books.Rejected(cfg, key.0, key.1)], [])
  {
  }

  ghost predicate NoneBetter(side: Direction, orders: seq<Resting>, tick: int) {
    forall i :: 0 <= i < |orders| ==> !Better(side, orders[i].tick, tick)
  }

  /** What has been sent, together with what matching the rest will send, is `goal`. */
  ghost predicate Toward(cfg: Books.Config, t: Books.Taker, h: Half, index: map<Books.Key, nat>,
                         r0: seq<Response>, r: seq<Response>, u0: seq<Update>, u: seq<Update>, goal: Books.Matched)
  {
    Books.TicksOk(h) &&
    var m := Books.Match(cfg, t, h, index);
    && goal.left == m.left && goal.half == m.half && goal.index == m.index
    && r0 + goal.responses == r + m.responses
    && u0 + goal.updates == u + m.updates
  }

  lemma ConcatAssociates<T>(a: seq<T>, b: seq<T>, c: seq<T>)
    ensures a + (b + c) == a + b + c
  {
  }

  lemma TowardStep(cfg: Books.Config, t: Books.Taker, h: Half, index: map<Books.Key, nat>,
                   r0: seq<Response>, r: seq<Response>, u0: seq<Update>, u: seq<Update>, goal: Books.Matched, tick: int)
    requires Toward(cfg, t, h, index, r0, r, u0, u, goal)
    requires Books.CanTrade(t, h) && Positive(h.orders)
    ensures var first := Books.FillFirst(cfg, t, h, index);
            && Toward(cfg, t.(quantity := first.left), first.half, first.index,
                      r0, r + first.responses, u0, u + first.updates, goal)
            && first.left < t.quantity && Positive(first.half.orders) && Books.TicksOk(first.half)
            && (NoneBetter(Opposite(t.side), h.orders, tick) ==> NoneBetter(Opposite(t.side), first.half.orders, tick))
  {
    hide NoneBetter;
    BookFacts.MatchUnfold(cfg, t, h, index);
    BookFacts.FillKeepsPositive(cfg, t, h, index);
    FillLeaves(cfg, t, h, index, tick);
    hide Books.Match, Books.FillFirst, Positive, Books.TicksOk;
    var first := Books.FillFirst(cfg, t, h, index);
    var m := Books.Match(cfg, t.(quantity := first.left), first.half, first.index);
    ConcatAssociates(r, first.responses, m.responses);
    ConcatAssociates(u, first.updates, m.updates);
  }

  /** A fill takes quantity off the taker and brings no new price. */
  lemma FillLeaves(cfg: Books.Config, t: Books.Taker, h: Half, index: map<Books.Key, nat>, tick: int)
    requires Books.TicksOk(h) && Books.CanTrade(t, h) && Positive(h.orders)
    ensures var first := Books.FillFirst(cfg, t, h, index);
            && first.left < t.quantity
            && (NoneBetter(Opposite(t.side), h.orders, tick) ==> NoneBetter(Opposite(t.side), first.half.orders, tick))
  {
    var first := Books.FillFirst(cfg, t, h, index);
    assert forall i :: 0 <= i < |first.half.orders| ==>
      first.half.orders[i].tick == h.orders[if |first.half.orders| == |h.orders| then i else i + 1].tick;
  }

  lemma TowardEnd(cfg: Books.Config, t: Books.Taker, h: Half, index: map<Books.Key, nat>,
                  r0: seq<Response>, r: seq<Response>, u0: seq<Update>, u: seq<Update>, goal: Books.Matched)
    requires Toward(cfg, t, h, index, r0, r, u0, u, goal) && !Books.CanTrade(t, h)
    ensures goal.left == t.quantity && goal.half == h && goal.index == index
    ensures r == r0 + goal.responses && u == u0 + goal.updates
  {
  }

  // ----- the table follows the sides -----

  /** The table as seen from a side: its own orders first, whichever side it is. */
  ghost predicate TableOkFor(isBid: bool, table: OrderTable, index: map<Books.Key, nat>,
                             slots: seq<int>, orders: seq<Resting>, otherSlots: seq<int>, otherOrders: seq<Resting>) {
    if isBid then TableOk(table, index, slots, orders, otherSlots, otherOrders)
    else TableOk(table, index, otherSlots, otherOrders, slots, orders)
  }

  lemma TableAfterFill(isBid: bool, table: OrderTable, index: map<Books.Key, nat>, slots: seq<int>, h: Half,
                       i: nat, quantity: nat, otherSlots: seq<int>, otherOrders: seq<Resting>)
    requires |slots| == |h.orders| && i < |slots| && quantity <= h.orders[i].quantity
    requires TableOkFor(isBid, table, index, slots, h.orders, otherSlots, otherOrders)
    ensures TableOkFor(isBid, table, index, slots, FillAt(h, i, quantity).orders, otherSlots, otherOrders)
  {
    AtAfterFill(slots, h, i, quantity);
    hide At;
  }

  lemma TableAfterRemove(isBid: bool, table: OrderTable, index: map<Books.Key, nat>, slots: seq<int>, h: Half,
                         i: nat, table': OrderTable, otherSlots: seq<int>, otherOrders: seq<Resting>)
    requires |slots| == |h.orders| && i < |slots|
    requires TableOkFor(isBid, table, index, slots, h.orders, otherSlots, otherOrders)
    requires forall key :: Lookup(table', key) == if key == Books.KeyOf(h.orders[i]) then None else Lookup(table, key)
    ensures TableOkFor(isBid, table', index - {Books.KeyOf(h.orders[i])}, slots[..i] + slots[i + 1..],
                       h.orders[..i] + h.orders[i + 1..], otherSlots, otherOrders)
  {
    AtAfterRemove(slots, h.orders, i);
    hide At;
  }

  lemma TableAfterInsert(isBid: bool, table: OrderTable, index: map<Books.Key, nat>, slots: seq<int>,
                         orders: seq<Resting>, p: nat, slot: int, x: Resting, table': OrderTable,
                         otherSlots: seq<int>, otherOrders: seq<Resting>)
    requires |slots| == |orders| && p <= |slots|
    requires TableOkFor(isBid, table, index, slots, orders, otherSlots, otherOrders)
    requires forall key :: Lookup(table', key) == if key == Books.KeyOf(x) then Some(slot) else Lookup(table, key)
    ensures TableOkFor(isBid, table', index[Books.KeyOf(x) := x.marketOrderId], slots[..p] + [slot] + slots[p..],
                       orders[..p] + [x] + orders[p..], otherSlots, otherOrders)
  {
    AtAfterInsert(slots, orders, p, slot, x);
    hide At;
  }
}
