/** Keeps a picture of all live orders from the numbered incremental stream and publishes
    it as snapshots. */
module SnapshotSynthesizers {
  import opened Types
  import opened Markets
  import opened MemPools
  import opened Snapshots

  type OrderKey = (nat, nat)

  /** (symbol, market order id) -> the stored message about that order. */
  type Stored = map<OrderKey, Update>

  /** The assertions made about the next message: those of the synthesizer, and that of its
      message pool, one of `kMaxOrderIds` slots for all symbols together, that it is not exhausted. */
  predicate Accepts(stored: Stored, last: nat, p: Packet) {
    var u, key := p.update, (p.update.symbol, p.update.orderId);
    && u.symbol < MAX_SYMBOLS
    && (u.kind in {ADD, MODIFY, CANCEL} ==> u.orderId < MAX_ORDER_IDS)
    && (u.kind == ADD ==> key !in stored && |stored| < MAX_ORDER_IDS)
    && (u.kind in {MODIFY, CANCEL} ==> key in stored && stored[key].orderId == u.orderId && stored[key].side == u.side)
    && p.seqNum == last + 1
  }

  function Absorb(stored: Stored, u: Update): Stored {
    var key := (u.symbol, u.orderId);
    match u.kind
    case ADD => stored[key := u]
    case MODIFY =>
      if key in stored then stored[key := stored[key].(quantity := u.quantity, price := u.price)] else stored
    case CANCEL => stored - {key}
    case _ => stored
  }

  /** The stored messages are the ADD messages of the market's live orders. */
  ghost predicate Pictures(stored: Stored, m: Market) {
    && stored.Keys == m.Keys
    && forall key :: key in m ==> stored[key] == AddOf(key, m[key])
  }

  /** On a stream that makes sense the picture stays true, and an assertion fires only when an
      order is added while as many orders as the pool has slots are live. */
  lemma AbsorbPictures(stored: Stored, m: Market, last: nat, p: Packet)
    requires Addressable(m) && Pictures(stored, m) && Fits(m, p.update) && p.seqNum == last + 1
    ensures Accepts(stored, last, p) <==> (p.update.kind == ADD ==> |m| < MAX_ORDER_IDS)
    ensures Pictures(Absorb(stored, p.update), Apply(m, p.update))
  {
    var u, key := p.update, (p.update.symbol, p.update.orderId);
    var stored', m' := Absorb(stored, u), Apply(m, u);
    assert |stored| == |stored.Keys| && |m| == |m.Keys|;
    assert u.kind == ADD && key in m ==> key.1 < u.orderId;
    assert stored'.Keys == m'.Keys;
    forall k | k in m'
      ensures stored'[k] == AddOf(k, m'[k])
    {
      if k != key {
        assert stored[k] == AddOf(k, m[k]);
      }
    }
  }

  /** What is stored after a stream. */
  function AbsorbAll(us: seq<Update>): Stored {
    if us == [] then map[] else Absorb(AbsorbAll(us[..|us| - 1]), us[|us| - 1])
  }

  // ----- the pool -----

  /** Each stored message has a slot of its own that holds it. */
  ghost predicate Placed(slots: map<OrderKey, int>, store: seq<Block<Update>>, stored: Stored) {
    && slots.Keys == stored.Keys
    && (forall key :: key in slots ==> 0 <= slots[key] < |store| && store[slots[key]] == Live(stored[key]))
    && forall k1, k2 :: k1 in slots && k2 in slots && k1 != k2 ==> slots[k1] != slots[k2]
  }

  lemma PlacedAdd(slots: map<OrderKey, int>, store: seq<Block<Update>>, stored: Stored, key: OrderKey, slot: int,
                  u: Update)
    requires Placed(slots, store, stored) && key !in stored
    requires 0 <= slot < |store| && !store[slot].Live?
    ensures Placed(slots[key := slot], store[slot := Live(u)], stored[key := u])
  {
    assert forall k :: k in slots ==> slots[k] != slot;
  }

  lemma PlacedAmend(slots: map<OrderKey, int>, store: seq<Block<Update>>, stored: Stored, key: OrderKey, u: Update)
    requires Placed(slots, store, stored) && key in stored
    ensures 0 <= slots[key] < |store| && Placed(slots, store[slots[key] := Live(u)], stored[key := u])
  {
  }

  lemma PlacedDrop(slots: map<OrderKey, int>, store: seq<Block<Update>>, stored: Stored, key: OrderKey,
                   block: Block<Update>)
    requires Placed(slots, store, stored) && key in stored
    ensures 0 <= slots[key] < |store| && Placed(slots - {key}, store[slots[key] := block], stored - {key})
  {
  }

  lemma SizeAfter(stored: Stored, key: OrderKey, u: Update)
    ensures |stored[key := u]| == |stored| + (if key in stored then 0 else 1)
    ensures key in stored ==> |stored - {key}| == |stored| - 1
  {
    assert |stored.Keys| == |stored|;
    assert stored[key := u].Keys == stored.Keys + {key};
    assert (stored - {key}).Keys == stored.Keys - {key};
  }

  function SlotOf(slots: map<OrderKey, int>, key: OrderKey): int {
    if key in slots then slots[key] else NULL
  }

  class SnapshotSynthesizer {
    const orders: array2<int>
    const pool: MemPool<Update>
    var lastIncSeqNum: nat
    var sent: seq<Packet>

    /** The stored messages, and the slot of the pool each of them is in. */
    ghost var stored: Stored
    ghost var slots: map<OrderKey, int>

    /** The table points to the slots. */
    ghost predicate Table()
      reads this`slots, orders
    {
      && orders.Length0 == MAX_SYMBOLS && orders.Length1 == MAX_ORDER_IDS
      && (forall key :: key in slots ==> key.0 < MAX_SYMBOLS && key.1 < MAX_ORDER_IDS && slots[key] != NULL)
      && (forall s: nat, id: nat :: s < MAX_SYMBOLS && id < MAX_ORDER_IDS ==>
            orders[s, id] == SlotOf(slots, (s, id)))
    }

    ghost predicate Valid()
      reads this`stored, this`slots, orders, pool, pool.storage
    {
      && Table()
      && pool.Valid() && pool.storage.Length == MAX_ORDER_IDS && pool.inUse == |stored|
      && Placed(slots, pool.storage[..], stored)
    }

    constructor ()
      ensures Valid() && fresh(orders) && fresh(pool) && fresh(pool.storage)
      ensures stored == map[] && lastIncSeqNum == 0 && sent == []
    {
      orders := new int[MAX_SYMBOLS, MAX_ORDER_IDS]((_, _) => NULL);
      pool := new MemPool(MAX_ORDER_IDS);
      lastIncSeqNum := 0;
      sent := [];
      stored, slots := map[], map[];
    }

    /** The pool is exhausted exactly when it holds as many messages as it has slots. */
    lemma Room()
      requires Valid()
      ensures pool.Exhausted() <==> |stored| == MAX_ORDER_IDS
      ensures |stored| <= MAX_ORDER_IDS
    {
      hide Placed;
      var n := pool.Available();
      InUseCountsLiveSlots(pool);
    }

    /** The slot of an order: null when nothing is stored about it. */
    lemma Lookup(symbol: nat, id: nat)
      requires Valid() && symbol < MAX_SYMBOLS && id < MAX_ORDER_IDS
      ensures orders.Length0 == MAX_SYMBOLS && orders.Length1 == MAX_ORDER_IDS
      ensures orders[symbol, id] == NULL <==> (symbol, id) !in stored
      ensures (symbol, id) in stored ==>
                (symbol, id) in slots && orders[symbol, id] == slots[(symbol, id)] && pool.IsLive(orders[symbol, id])
                && pool.Get(orders[symbol, id]) == stored[(symbol, id)]
    {
      var key := (symbol, id);
      assert orders[symbol, id] == SlotOf(slots, key);
      if key in stored {
        var store := pool.storage[..];
        assert store[slots[key]] == Live(stored[key]);
      }
    }

    method Point(symbol: nat, id: nat, slot: int)
      requires Table() && symbol < MAX_SYMBOLS && id < MAX_ORDER_IDS
      modifies this`slots, orders
      ensures Table()
      ensures slots == if slot == NULL then old(slots) - {(symbol, id)} else old(slots)[(symbol, id) := slot]
    {
      orders[symbol, id] := slot;
      slots := if slot == NULL then slots - {(symbol, id)} else slots[(symbol, id) := slot];
    }

    /** Stores the message about a new order. */
    method Store(u: Update)
      requires Valid() && u.symbol < MAX_SYMBOLS && u.orderId < MAX_ORDER_IDS
      requires (u.symbol, u.orderId) !in stored && !pool.Exhausted()
      modifies this`stored, this`slots, orders, pool, pool.storage
      ensures Valid() && stored == old(stored)[(u.symbol, u.orderId) := u]
    {
      hide Placed, Table, FreeChain;
      ghost var key := (u.symbol, u.orderId);
      ghost var store := pool.storage[..];
      var slot := pool.Allocate(u);
      assert !store[slot].Live?;
      PlacedAdd(slots, store, stored, key, slot, u);
      SizeAfter(stored, key, u);
      Point(u.symbol, u.orderId, slot);
      stored := stored[key := u];
    }

    method Overwrite(slot: int, order: Update, ghost key: OrderKey)
      requires Valid() && key in stored && key in slots && slot == slots[key] && pool.IsLive(slot)
      modifies this`stored, pool.storage
      ensures Valid() && stored == old(stored)[key := order]
    {
      hide Placed, Table, FreeChain;
      PlacedAmend(slots, pool.storage[..], stored, key, order);
      SizeAfter(stored, key, order);
      pool.Set(slot, order);
      stored := stored[key := order];
    }

    /** Overwrites quantity and price of a stored message. */
    method Amend(u: Update)
      requires Valid() && u.symbol < MAX_SYMBOLS && u.orderId < MAX_ORDER_IDS
      requires (u.symbol, u.orderId) in stored
      modifies this`stored, pool.storage
      ensures Valid()
      ensures var key := (u.symbol, u.orderId);
              stored == old(stored)[key := old(stored)[key].(quantity := u.quantity, price := u.price)]
    {
      hide Valid;
      Lookup(u.symbol, u.orderId);
      var slot := orders[u.symbol, u.orderId];
      var order := pool.Get(slot);
      Overwrite(slot, order.(quantity := u.quantity, price := u.price), (u.symbol, u.orderId));
    }

    method Release(slot: int, symbol: nat, id: nat)
      requires Valid() && symbol < MAX_SYMBOLS && id < MAX_ORDER_IDS
      requires (symbol, id) in stored && (symbol, id) in slots && slot == slots[(symbol, id)] && pool.IsLive(slot)
      modifies this`stored, this`slots, orders, pool, pool.storage
      ensures Valid() && stored == old(stored) - {(symbol, id)}
    {
      hide Placed, Table, FreeChain;
      PlacedDrop(slots, pool.storage[..], stored, (symbol, id), Free(pool.freeHead));
      SizeAfter(stored, (symbol, id), stored[(symbol, id)]);
      pool.Deallocate(slot);
      Point(symbol, id, NULL);
      stored := stored - {(symbol, id)};
    }

    /** Forgets an order; its slot goes back to the pool. */
    method Forget(u: Update)
      requires Valid() && u.symbol < MAX_SYMBOLS && u.orderId < MAX_ORDER_IDS
      requires (u.symbol, u.orderId) in stored
      modifies this`stored, this`slots, orders, pool, pool.storage
      ensures Valid() && stored == old(stored) - {(u.symbol, u.orderId)}
    {
      hide Valid;
      Lookup(u.symbol, u.orderId);
      Release(orders[u.symbol, u.orderId], u.symbol, u.orderId);
    }

    /** Takes in one incremental; `ok` is false exactly when an assertion would have ended
        the process. */
    method AddToSnapshot(p: Packet) returns (ok: bool)
      requires Valid()
      modifies this, orders, pool, pool.storage
      ensures ok <==> Accepts(old(stored), old(lastIncSeqNum), p)
      ensures ok ==> Valid() && stored == Absorb(old(stored), p.update) && lastIncSeqNum == p.seqNum
      ensures sent == old(sent)
    {
      hide Valid;
      var u := p.update;
      if u.symbol >= MAX_SYMBOLS || (u.kind in {ADD, MODIFY, CANCEL} && u.orderId >= MAX_ORDER_IDS) {
        return false;
      }
      Room();
      if u.orderId < MAX_ORDER_IDS {
        Lookup(u.symbol, u.orderId);
      }
      match u.kind {
        case ADD =>
          if orders[u.symbol, u.orderId] != NULL || pool.Exhausted() {
            return false;
          }
          Store(u);
        case MODIFY =>
          if orders[u.symbol, u.orderId] == NULL {
            return false;
          }
          var order := pool.Get(orders[u.symbol, u.orderId]);
          if order.orderId != u.orderId || order.side != u.side {
            return false;
          }
          Amend(u);
        case CANCEL =>
          if orders[u.symbol, u.orderId] == NULL {
            return false;
          }
          var order := pool.Get(orders[u.symbol, u.orderId]);
          if order.orderId != u.orderId || order.side != u.side {
            return false;
          }
          Forget(u);
        case _ =>
      }
      if p.seqNum != lastIncSeqNum + 1 {
        return false;
      }
      lastIncSeqNum := p.seqNum;
      return true;
    }

    method Send(update: Update, seqNum: nat)
      modifies this`sent
      ensures sent == old(sent) + [Packet(seqNum, update)]
    {
      sent := sent + [Packet(seqNum, update)];
    }

    /** Publishes one snapshot cycle: the packets of the snapshot of what is stored. */
    method PublishSnapshot(ghost m: Market)
      requires Valid() && Pictures(stored, m)
      modifies this`sent
      ensures Valid()
      ensures sent == old(sent) + Numbered(Snapshot(m, lastIncSeqNum))
    {
      hide Valid, Pictures, Body, OrdersOf, Numbered;
      ghost var before := sent;
      ghost var out: seq<Update> := [];
      var snapshotSize := 0;
      NumberedNothing();
      Send(Start(lastIncSeqNum), snapshotSize);
      NumberedOne(before, out, Start(lastIncSeqNum));
      out, snapshotSize := out + [Start(lastIncSeqNum)], snapshotSize + 1;
      var symbol := 0;
      assert out == [Start(lastIncSeqNum)] + Body(m, 0) by {
        BodyNone(m);
      }
      while symbol < MAX_SYMBOLS
        invariant symbol <= MAX_SYMBOLS && Valid() && Pictures(stored, m)
        invariant snapshotSize == |out| && sent == before + Numbered(out)
        invariant out == [Start(lastIncSeqNum)] + Body(m, symbol)
      {
        Send(Clear(symbol), snapshotSize);
        NumberedOne(before, out, Clear(symbol));
        out, snapshotSize := out + [Clear(symbol)], snapshotSize + 1;
        var id := 0;
        OrdersNone(m, symbol);
        ghost var start := out;
        while id < MAX_ORDER_IDS
          invariant id <= MAX_ORDER_IDS && Valid() && Pictures(stored, m)
          invariant snapshotSize == |out| && sent == before + Numbered(out)
          invariant out == start + OrdersOf(m, symbol, id)
        {
          SlotShows(m, symbol, id);
          OrdersNext(m, symbol, id);
          if orders[symbol, id] != NULL {
            var order := pool.Get(orders[symbol, id]);
            Send(order, snapshotSize);
            NumberedOne(before, out, order);
            out, snapshotSize := out + [order], snapshotSize + 1;
          }
          id := id + 1;
        }
        BodyNext(m, symbol);
        symbol := symbol + 1;
      }
      Send(End(lastIncSeqNum), snapshotSize);
      NumberedOne(before, out, End(lastIncSeqNum));
      out, snapshotSize := out + [End(lastIncSeqNum)], snapshotSize + 1;
    }

    lemma SlotShows(m: Market, symbol: nat, id: nat)
      requires Valid() && Pictures(stored, m) && symbol < MAX_SYMBOLS && id < MAX_ORDER_IDS
      ensures orders.Length0 == MAX_SYMBOLS && orders.Length1 == MAX_ORDER_IDS
      ensures orders[symbol, id] == NULL <==> (symbol, id) !in m
      ensures (symbol, id) in m ==>
                pool.IsLive(orders[symbol, id]) && pool.Get(orders[symbol, id]) == AddOf((symbol, id), m[(symbol, id)])
    {
      Lookup(symbol, id);
    }
  }

  lemma NumberedNothing()
    ensures Numbered([]) == []
  {
  }

  lemma NumberedOne(before: seq<Packet>, out: seq<Update>, u: Update)
    ensures before + Numbered(out) + [Packet(|out|, u)] == before + Numbered(out + [u])
  {
  }

  lemma BodyNone(m: Market)
    ensures Body(m, 0) == []
  {
  }

  lemma BodyNext(m: Market, n: nat)
    ensures Body(m, n + 1) == Body(m, n) + [Clear(n)] + OrdersOf(m, n, MAX_ORDER_IDS)
  {
    hide OrdersOf;
  }

  lemma OrdersNone(m: Market, symbol: nat)
    ensures OrdersOf(m, symbol, 0) == []
  {
  }

  lemma OrdersNext(m: Market, symbol: nat, n: nat)
    ensures OrdersOf(m, symbol, n + 1)
            == OrdersOf(m, symbol, n) + if (symbol, n) in m then [AddOf((symbol, n), m[(symbol, n)])] else []
  {
  }
}
