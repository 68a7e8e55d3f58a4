/** The client's copy of one symbol's book: pooled nodes on circular lists, found through an
    id index and a price index shared by both sides. */
module MarketOrderBooks {
  import opened Types
  import opened MemPools
  import opened Rings
  import opened Markets
  import opened MirrorSpecs
  import opened MirrorFacts
  import opened MirrorStores

  class MarketOrderBook {
    const orderPool: MemPool<Node<MarketOrder>>
    const levelPool: MemPool<Node<OrdersAtPrice>>
    const oidToOrder: array<int>
    const priceIndex: array<int>
    var bidsByPrice: int
    var asksByPrice: int
    var bbo: BBO

    /** The book as a value. */
    ghost var mirror: Mirror

    ghost function Repr(): set<object>
    {
      {orderPool, orderPool.storage, levelPool, levelPool.storage, oidToOrder, priceIndex}
    }

    /** The parts are distinct objects and the pools are sound. */
    ghost predicate Shape()
      reads this, Repr()
    {
      && oidToOrder != priceIndex
      && orderPool.Valid() && levelPool.Valid()
      && orderPool.storage.Length == MAX_ORDER_IDS && levelPool.storage.Length == MAX_PRICE_LEVELS
      && oidToOrder.Length == MAX_ORDER_IDS && priceIndex.Length == MAX_PRICE_LEVELS
    }

    ghost predicate Orders(entries: map<nat, Entry>, queues: map<int, seq<nat>>)
      reads this, Repr()
    {
      OrdersOk(orderPool.storage[..], oidToOrder[..], entries, queues)
    }

    ghost predicate Levels(bids: seq<int>, asks: seq<int>, firsts: map<int, int>)
      reads this, Repr()
    {
      && LevelsOk(levelPool.storage[..], priceIndex[..], bids, asks, firsts)
      && bidsByPrice == Head(priceIndex[..], bids) && asksByPrice == Head(priceIndex[..], asks)
    }

    constructor ()
      ensures fresh(Repr()) && Valid() && mirror == NO_MIRROR
    {
      hide MemPool.Valid, MemPool.IsLive, Valid, FreeChain;
      orderPool := new MemPool(MAX_ORDER_IDS);
      levelPool := new MemPool(MAX_PRICE_LEVELS);
      oidToOrder := new int[MAX_ORDER_IDS](_ => NULL);
      priceIndex := new int[MAX_PRICE_LEVELS](_ => NULL);
      bidsByPrice, asksByPrice := NULL, NULL;
      bbo := NO_BBO;
      mirror := NO_MIRROR;
      new;
      BlankValid();
    }

    lemma BlankValid()
      requires Shape() && orderPool.inUse == 0 == levelPool.inUse && mirror == NO_MIRROR && bbo == NO_BBO
      requires forall i :: 0 <= i < oidToOrder.Length ==> oidToOrder[i] == NULL
      requires forall i :: 0 <= i < priceIndex.Length ==> priceIndex[i] == NULL
      requires bidsByPrice == NULL == asksByPrice
      ensures Valid()
    {
      hide MemPool.Valid, OrdersOk, LevelsOk, Firsts, MirrorOk, TopOfBook;
      NothingHeld(orderPool.storage[..], oidToOrder[..], levelPool.storage[..], priceIndex[..]);
    }

    function BestHead(side: Direction): int
      reads this
    {
      if side == BUY then bidsByPrice else asksByPrice
    }

    method SetBestHead(side: Direction, head: int)
      modifies this`bidsByPrice, this`asksByPrice
      ensures side == BUY ==> bidsByPrice == head && asksByPrice == old(asksByPrice)
      ensures side != BUY ==> asksByPrice == head && bidsByPrice == old(bidsByPrice)
    {
      if side == BUY {
        bidsByPrice := head;
      } else {
        asksByPrice := head;
      }
    }

    function PriceToIndex(price: int): (i: nat)
      ensures i < MAX_PRICE_LEVELS && (0 <= price < MAX_PRICE_LEVELS ==> i == price)
    {
      price % 0x4000
    }

    /** Finds where a new price belongs: in front of `target`, or behind every level. */
    method FindPlace(side: Direction, price: int, best: int, ghost idx: seq<int>, ghost prices: seq<int>)
      returns (target: int, addAfter: bool)
      requires Ring(levelPool.storage[..], idx, prices) && prices != [] && best == Head(idx, prices)
      requires SortedPrices(side, prices) && price !in prices
      requires forall j :: 0 <= j < |prices| ==> PriceAt(levelPool.storage[..], idx, prices[j])
      ensures var k := Rank(side, prices, price);
              && (addAfter <==> k == |prices|)
              && Keyed(levelPool.storage[..], idx, prices[if k == |prices| then 0 else k])
              && target == idx[prices[if k == |prices| then 0 else k]]
    {
      ghost var n, k: nat := |prices|, 0;
      target := best;
      assert PriceAt(levelPool.storage[..], idx, prices[0]);
      addAfter := IsWorse(side, price, levelPool.Get(target).value.price);
      if addAfter {
        RingStep(levelPool.storage[..], idx, prices, 0);
        target := levelPool.Get(target).next;
        assert PriceAt(levelPool.storage[..], idx, prices[Next(0, n)]);
        addAfter := IsWorse(side, price, levelPool.Get(target).value.price);
        k := 1;
      }
      while addAfter && target != best
        invariant k <= n && (addAfter ==> k > 0)
        invariant target == idx[prices[if k == n then 0 else k]]
        invariant forall i :: 0 <= i < k ==> Better(side, prices[i], price)
        invariant !addAfter ==> k < n && !Better(side, prices[k], price)
        decreases n - k, if addAfter then 1 else 0
      {
        assert PriceAt(levelPool.storage[..], idx, prices[k]);
        addAfter := IsWorse(side, price, levelPool.Get(target).value.price);
        if addAfter {
          RingStep(levelPool.storage[..], idx, prices, k);
          target := levelPool.Get(target).next;
          k := k + 1;
        }
      }
      RankIs(side, prices, price, k);
      assert PriceAt(levelPool.storage[..], idx, prices[if k == n then 0 else k]);
    }

    /** Links a level in in front of `target`; a new best price becomes the head of its side. */
    method PlaceInFront(side: Direction, price: int, level: int, best: int, target: int)
      requires Shape() && levelPool.IsLive(level) && levelPool.IsLive(best) && levelPool.IsLive(target)
      requires var before := levelPool.Get(target).prev;
               levelPool.IsLive(before) && levelPool.Get(before).next == target && level != target && level != before
      requires IsWorse(side, levelPool.Get(best).value.price, price) ==>
                 target == best && (levelPool.Get(target).next == target ==> levelPool.Get(target).prev == target)
      modifies this`bidsByPrice, this`asksByPrice, levelPool.storage
      ensures Shape()
      ensures Spliced(old(levelPool.storage[..]), levelPool.storage[..], level, old(levelPool.Get(target)).prev, target)
      ensures BestHead(side) == (if old(IsWorse(side, levelPool.Get(best).value.price, price)) then level
                                 else old(BestHead(side)))
      ensures BestHead(Opposite(side)) == old(BestHead(Opposite(side)))
    {
      hide MemPool.Valid;
      ghost var store := levelPool.storage[..];
      assert levelPool.Get(best) == store[best].value && levelPool.Get(target) == store[target].value;
      LinkBefore(levelPool, level, target);
      ghost var store' := levelPool.storage[..];
      assert store'[best] == SplicedBlock(store[best], best, level, store[target].value.prev, target);
      assert store'[target] == SplicedBlock(store[target], target, level, store[target].value.prev, target);
      assert levelPool.Get(best) == store'[best].value && levelPool.Get(target) == store'[target].value;
      if IsWorse(side, levelPool.Get(best).value.price, price) {
        var next := levelPool.Get(target).next;
        assert next != best;
        SetNext(levelPool, target, if next == best then level else next);
        assert levelPool.storage[..] == store';
        SetBestHead(side, level);
      }
    }

    /** Links a level into the ring of a side that has levels. */
    method PlaceLevel(side: Direction, price: int, level: int, best: int, ghost idx: seq<int>, ghost prices: seq<int>)
      requires Shape() && levelPool.IsLive(level)
      requires Ring(levelPool.storage[..], idx, prices) && prices != [] && best == Head(idx, prices)
      requires SortedPrices(side, prices) && price !in prices
      requires forall j :: 0 <= j < |prices| ==>
                 PriceAt(levelPool.storage[..], idx, prices[j]) && idx[prices[j]] != level
      modifies this`bidsByPrice, this`asksByPrice, levelPool.storage
      ensures Shape()
      ensures var k := Rank(side, prices, price);
              && Inserted(old(levelPool.storage[..]), levelPool.storage[..], idx, prices, k, level)
              && BestHead(side) == (if k == 0 then level else old(BestHead(side)))
              && BestHead(Opposite(side)) == old(BestHead(Opposite(side)))
    {
      hide MemPool.Valid, Spliced;
      ghost var k := Rank(side, prices, price);
      ghost var n := |prices|;
      ghost var store := levelPool.storage[..];
      RankSplits(side, prices, price);
      hide Rank;
      var target, addAfter := FindPlace(side, price, best, idx, prices);
      RingStep(store, idx, prices, if k == n then 0 else k);
      RingStep(store, idx, prices, Prev(if k == n then 0 else k, n));
      assert PriceAt(store, idx, prices[0]);
      hide Ring;
      if addAfter {
        if target == best {
          target := levelPool.Get(best).prev;
        }
        LinkAfter(levelPool, level, target);
      } else {
        assert k > 0 ==> Better(side, prices[0], price);
        assert k == 0 ==> prices[0] != price;
        PlaceInFront(side, price, level, best, target);
      }
    }

    /** Enters a level under its price and in its place on its side. */
    method AddOrdersAtPrice(level: int, ghost bids: seq<int>, ghost asks: seq<int>, ghost firsts: map<int, int>)
      requires Shape() && Levels(bids, asks, firsts) && levelPool.IsLive(level) && Loose(priceIndex[..], level)
      requires var l := levelPool.Get(level).value;
               l.price !in firsts && 0 <= l.price < MAX_PRICE_LEVELS
      modifies this`bidsByPrice, this`asksByPrice, levelPool.storage, priceIndex
      ensures Shape()
      ensures var l := old(levelPool.Get(level)).value;
              var prices' := InsertPrice(l.side, OnSide(l.side, bids, asks), l.price);
              if l.side == BUY then Levels(prices', asks, firsts[l.price := l.firstOrder])
              else Levels(bids, prices', firsts[l.price := l.firstOrder])
    {
      hide MemPool.Valid, Inserted, Ring, SortedPrices, Rank, LevelsOk, InsertPrice, LevelAt;
      ghost var ls, idx := levelPool.storage[..], priceIndex[..];
      ghost var l := levelPool.Get(level).value;
      ghost var prices := OnSide(l.side, bids, asks);
      var side, price := levelPool.Get(level).value.side, levelPool.Get(level).value.price;
      priceIndex[PriceToIndex(price)] := level;
      assert priceIndex[..] == idx[price := level];
      var best := BestHead(side);
      SidePrices(ls, idx, bids, asks, firsts, side, level);
      if best == NULL {
        SetBestHead(side, level);
        SetPrev(levelPool, level, level);
        SetNext(levelPool, level, level);
        assert levelPool.storage[..] == ls[level := Live(Node(OrdersAtPrice(side, price, l.firstOrder), level, level))];
        StartLevel(ls, levelPool.storage[..], idx, priceIndex[..], bids, asks, firsts, side, price,
                   l.firstOrder, level);
        EmptyInsert(side, price);
      } else {
        PlaceLevel(side, price, level, best, idx, prices);
        InsertLevel(ls, levelPool.storage[..], idx, priceIndex[..], bids, asks, firsts, side, price,
                    l.firstOrder, level);
      }
      HeadAfterInsert(idx, priceIndex[..], side, prices, price, level);
      HeadKept(idx, priceIndex[..], OnSide(Opposite(side), bids, asks), price);
    }

    /** Unlinks a level from its ring and moves the head of its side off it. */
    method UnlinkLevel(side: Direction, level: int)
      requires Shape() && levelPool.IsLive(level)
      requires var n := levelPool.Get(level);
               levelPool.IsLive(n.prev) && levelPool.IsLive(n.next) && (n.prev == level <==> n.next == level)
      modifies this`bidsByPrice, this`asksByPrice, levelPool.storage
      ensures Shape() && levelPool.IsLive(level)
      ensures Bypassed(old(levelPool.storage[..]), levelPool.storage[..], level)
      ensures BestHead(Opposite(side)) == old(BestHead(Opposite(side)))
      ensures var next := old(levelPool.Get(level)).next;
              BestHead(side) == if next == level then NULL
                                else if old(BestHead(side)) == level then next
                                else old(BestHead(side))
    {
      hide MemPool.Valid;
      var best := BestHead(side);
      if levelPool.Get(level).next == level {
        SetBestHead(side, NULL);
        NoBypass(levelPool.storage[..], level);
      } else {
        var next := levelPool.Get(level).next;
        Unlink(levelPool, level);
        hide Bypassed;
        if level == best {
          SetBestHead(side, next);
        }
      }
    }

    /** Takes a level off its side and returns its node to the pool. */
    method RemoveOrdersAtPrice(side: Direction, price: int, ghost bids: seq<int>, ghost asks: seq<int>,
                               ghost firsts: map<int, int>)
      requires Shape() && Levels(bids, asks, firsts) && price in OnSide(side, bids, asks)
      modifies this`bidsByPrice, this`asksByPrice, levelPool, levelPool.storage, priceIndex
      ensures Shape() && levelPool.inUse == old(levelPool.inUse) - 1
      ensures var prices := OnSide(side, bids, asks);
              var k := Rank(side, prices, price);
              && k < |prices|
              && if side == BUY then Levels(Without(prices, k), asks, firsts - {price})
                 else Levels(bids, Without(prices, k), firsts - {price})
    {
      hide MemPool.Valid, LevelsOk, Rank, Bypassed, Without;
      ghost var ls, idx := levelPool.storage[..], priceIndex[..];
      SideLevel(ls, idx, bids, asks, firsts, side, price);
      var level := priceIndex[PriceToIndex(price)];
      assert levelPool.Get(level) == ls[level].value;
      UnlinkLevel(side, level);
      priceIndex[PriceToIndex(price)] := NULL;
      FreedBypass(ls, levelPool.storage[..], level, levelPool.freeHead);
      levelPool.Deallocate(level);
      assert priceIndex[..] == idx[price := NULL];
      LevelGone(ls, levelPool.storage[..], idx, bids, asks, firsts, side, price);
    }

    /** The pools, lists and indexes hold exactly the mirror. */
    ghost predicate Shown()
      reads this, Repr()
    {
      && MirrorOk(mirror) && Orders(mirror.entries, mirror.queues)
      && Levels(mirror.bids, mirror.asks, Firsts(oidToOrder[..], mirror.queues))
      && levelPool.inUse == |mirror.queues|
    }

    /** Links `order` in behind the last order of the ring that starts at `first`. */
    method LinkLast(order: int, first: int)
      requires Shape() && orderPool.IsLive(order) && orderPool.IsLive(first)
      requires var last := orderPool.Get(first).prev;
               orderPool.IsLive(last) && orderPool.Get(last).next == first && order != first && order != last
      modifies orderPool.storage
      ensures Shape()
      ensures Spliced(old(orderPool.storage[..]), orderPool.storage[..], order, old(orderPool.Get(first)).prev, first)
    {
      hide MemPool.Valid, Spliced;
      FourAssignments(orderPool.storage[..], order, orderPool.Get(first).prev, first);
      SetNext(orderPool, orderPool.Get(first).prev, order);
      SetPrev(orderPool, order, orderPool.Get(first).prev);
      SetNext(orderPool, order, first);
      SetPrev(orderPool, first, order);
    }

    /** What a caller of `AddOrder` provides: a filled-in node not yet on any list. */
    ghost predicate Addable(order: int)
      reads this, Repr()
    {
      && orderPool.IsLive(order) && Loose(oidToOrder[..], order)
      && var o := orderPool.Get(order).value;
         && 1 <= o.orderId < MAX_ORDER_IDS && (forall id :: id in mirror.entries ==> id < o.orderId)
         && o.entry.quantity < QUANTITY_MODULUS
         && o.entry.side != NoSide && 0 <= o.entry.price < MAX_PRICE_LEVELS
         && (o.entry.price in mirror.queues ==> o.entry.price in PricesOf(mirror, o.entry.side))
    }

    /** Queues an order at a price that has a level. */
    method QueueOrder(order: int, first: int)
      requires Shape() && Shown() && Addable(order)
      requires var p := orderPool.Get(order).value.entry.price;
               p in mirror.queues && first == Firsts(oidToOrder[..], mirror.queues)[p]
      modifies orderPool.storage
      ensures Shape()
      ensures var o := old(orderPool.Get(order)).value;
              var q := old(mirror.queues)[o.entry.price];
              OrdersOk(orderPool.storage[..], oidToOrder[..][o.orderId := order],
                       mirror.entries[o.orderId := o.entry], mirror.queues[o.entry.price := q + [o.orderId]])
    {
      hide MemPool.Valid, LevelsOk, Firsts;
      ghost var os, oid := orderPool.storage[..], oidToOrder[..];
      ghost var o := orderPool.Get(order).value;
      ghost var q := mirror.queues[o.entry.price];
      FirstsKeys(mirror, oid);
      FirstAndLast(os, oid, mirror, o.entry.price);
      LinkLast(order, first);
      hide OrdersOk, MirrorOk, Spliced;
      AppendOrder(os, orderPool.storage[..], oid, oid[o.orderId := order], mirror, o.orderId, o.entry, order);
    }

    /** Starts the queue of a price that has no level yet. */
    method StartQueue(order: int)
      requires Shape() && Shown() && Addable(order)
      requires orderPool.Get(order).value.entry.price !in mirror.queues
      modifies this`bidsByPrice, this`asksByPrice, orderPool.storage, levelPool, levelPool.storage, priceIndex
      ensures Shape() && levelPool.inUse == old(levelPool.inUse) + 1
      ensures var o := old(orderPool.Get(order)).value;
              var p := o.entry.price;
              && OrdersOk(orderPool.storage[..], oidToOrder[..][o.orderId := order],
                          mirror.entries[o.orderId := o.entry], mirror.queues[p := [o.orderId]])
              && var m := mirror;
                 var prices' := InsertPrice(o.entry.side, PricesOf(m, o.entry.side), p);
                 var firsts' := Firsts(oidToOrder[..], m.queues)[p := order];
                 if o.entry.side == BUY then Levels(prices', m.asks, firsts') else Levels(m.bids, prices', firsts')
    {
      hide MemPool.Valid, OrdersOk, LevelsOk, Firsts, MirrorOk, InsertPrice;
      ghost var os, oid := orderPool.storage[..], oidToOrder[..];
      ghost var ls, idx := levelPool.storage[..], priceIndex[..];
      ghost var firsts := Firsts(oid, mirror.queues);
      var o := orderPool.Get(order).value;
      FirstsSame(os, oid, mirror);
      SetNext(orderPool, order, order);
      SetPrev(orderPool, order, order);
      assert orderPool.storage[..] == os[order := Live(Node(MarketOrder(o.orderId, o.entry), order, order))];
      StartOrder(os, orderPool.storage[..], oid, oid[o.orderId := order], mirror, o.orderId, o.entry, order);
      LevelsFit(mirror, o.entry.price);
      HasRoom(levelPool);
      var level := levelPool.Allocate(Node(OrdersAtPrice(o.entry.side, o.entry.price, order), NULL, NULL));
      FreshLevel(ls, idx, mirror.bids, mirror.asks, firsts, level, levelPool.storage[level]);
      AddOrdersAtPrice(level, mirror.bids, mirror.asks, firsts);
    }

    /** Queues an order behind those at its price. */
    method AddOrder(order: int)
      requires Shape() && Shown() && Addable(order)
      modifies this`bidsByPrice, this`asksByPrice, this`mirror, orderPool.storage, levelPool, levelPool.storage,
               priceIndex, oidToOrder
      ensures Shape() && Shown()
      ensures var o := old(orderPool.Get(order)).value;
              mirror == MirrorSpecs.AddOrder(old(mirror), o.entry.side, o.orderId, o.entry)
    {
      hide MemPool.Valid, OrdersOk, LevelsOk, Firsts, MirrorOk, InsertPrice, Head, Loose;
      ghost var m, oid := mirror, oidToOrder[..];
      var o := orderPool.Get(order).value;
      var p := o.entry.price;
      OrderAdded(m, o.entry.side, o.orderId, o.entry);
      IndexedLevel(levelPool.storage[..], priceIndex[..], orderPool.storage[..], oid, m, p);
      var level := priceIndex[PriceToIndex(p)];
      if level == NULL {
        StartQueue(order);
        FirstsAfterStart(m, oid, p, o.orderId, order);
      } else {
        QueueOrder(order, levelPool.Get(level).value.firstOrder);
        FirstsAfterAppend(m, oid, p, o.orderId, order);
      }
      oidToOrder[o.orderId] := order;
      assert oidToOrder[..] == oid[o.orderId := order];
      mirror := MirrorSpecs.AddOrder(m, o.entry.side, o.orderId, o.entry);
    }

    /** Takes an order out of a queue that holds others too; its level finds a new first. */
    method LeaveQueue(order: int, ghost id: nat)
      requires Shape() && Shown() && id in mirror.entries && order == oidToOrder[id]
      requires mirror.entries[id].price in mirror.queues && |mirror.queues[mirror.entries[id].price]| > 1
      requires id in mirror.queues[mirror.entries[id].price]
      modifies orderPool.storage, levelPool.storage
      ensures Shape() && orderPool.IsLive(order)
      ensures Bypassed(old(orderPool.storage[..]), orderPool.storage[..], order)
      ensures orderPool.Get(order).value == MarketOrder(id, mirror.entries[id])
      ensures var p := mirror.entries[id].price;
              var q := Without(mirror.queues[p], IndexOf(mirror.queues[p], id));
              && q != [] && q[0] < MAX_ORDER_IDS
              && Levels(mirror.bids, mirror.asks, Firsts(oidToOrder[..], mirror.queues)[p := oidToOrder[q[0]]])
    {
      hide MemPool.Valid, OrdersOk, LevelsOk, Firsts, MirrorOk;
      ghost var m, os, oid := mirror, orderPool.storage[..], oidToOrder[..];
      ghost var ls := levelPool.storage[..];
      ghost var p := m.entries[id].price;
      ghost var q := m.queues[p];
      ghost var k := IndexOf(q, id);
      ghost var firsts := Firsts(oid, m.queues);
      QueuePlace(os, oid, m, id);
      IndexedLevel(ls, priceIndex[..], os, oid, m, p);
      FirstsKeys(m, oid);
      var level := priceIndex[PriceToIndex(orderPool.Get(order).value.entry.price)];
      var after := orderPool.Get(order).next;
      Unlink(orderPool, order);
      hide Bypassed, IndexOf;
      if levelPool.Get(level).value.firstOrder == order {
        levelPool.Set(level, levelPool.Get(level).(value := levelPool.Get(level).value.(firstOrder := after)));
        ReviseLevel(ls, levelPool.storage[..], priceIndex[..], m.bids, m.asks, firsts, p, after);
      } else {
        assert firsts[p := oid[q[0]]] == firsts;
      }
    }

    /** Takes an order off its list, and its level off its side if it held no other order. */
    method Detach(order: int, ghost id: nat)
      requires Shape() && Shown() && id in mirror.entries && id < oidToOrder.Length && order == oidToOrder[id]
      modifies this`bidsByPrice, this`asksByPrice, orderPool.storage, levelPool, levelPool.storage, priceIndex
      ensures Shape() && orderPool.IsLive(order)
      ensures Bypassed(old(orderPool.storage[..]), orderPool.storage[..], order)
      ensures orderPool.Get(order).value == MarketOrder(id, mirror.entries[id])
      ensures var m' := CancelOrder(mirror, id);
              && levelPool.inUse == |m'.queues|
              && Levels(m'.bids, m'.asks, Firsts(oidToOrder[..][id := NULL], m'.queues))
    {
      hide MemPool.Valid, OrdersOk, LevelsOk, Firsts, MirrorOk, Rank;
      ghost var m, os, oid := mirror, orderPool.storage[..], oidToOrder[..];
      OrderPlace(m, id);
      QueuePlace(os, oid, m, id);
      FirstsSame(os, oid, m);
      var node := orderPool.Get(order);
      if node.prev == order {
        NoBypass(os, order);
        hide Bypassed, IndexOf;
        RemoveOrdersAtPrice(node.value.entry.side, node.value.entry.price, m.bids, m.asks, Firsts(oid, m.queues));
        FirstsAfterLast(m, oid, id);
      } else {
        LeaveQueue(order, id);
        hide Bypassed;
        FirstsAfterLeave(m, oid, id);
      }
    }

    /** Takes an order out of every list and index and returns its node to the pool. */
    method RemoveOrder(order: int, ghost id: nat)
      requires Shape() && Shown() && id in mirror.entries && id < oidToOrder.Length && order == oidToOrder[id]
      modifies this`bidsByPrice, this`asksByPrice, this`mirror, orderPool, orderPool.storage, levelPool,
               levelPool.storage, priceIndex, oidToOrder
      ensures Shape() && Shown() && orderPool.inUse == old(orderPool.inUse) - 1
      ensures mirror == CancelOrder(old(mirror), id)
    {
      hide MemPool.Valid, OrdersOk, LevelsOk, Firsts, MirrorOk, Rank, Bypassed, CancelOrder;
      ghost var m, os, oid := mirror, orderPool.storage[..], oidToOrder[..];
      Detach(order, id);
      oidToOrder[orderPool.Get(order).value.orderId] := NULL;
      assert oidToOrder[..] == oid[id := NULL];
      FreedBypass(os, orderPool.storage[..], order, orderPool.freeHead);
      orderPool.Deallocate(order);
      OrderGone(os, orderPool.storage[..], oid, m, id);
      mirror := CancelOrder(m, id);
    }

    /** The level of a price leads to the order that has waited longest there. */
    lemma FirstOfLevel(p: int)
      requires Shape() && Shown() && p in mirror.queues && 0 <= p < priceIndex.Length
      ensures levelPool.IsLive(priceIndex[p]) && mirror.queues[p] != [] && mirror.queues[p][0] < oidToOrder.Length
      ensures levelPool.Get(priceIndex[p]).value.firstOrder == oidToOrder[mirror.queues[p][0]]
    {
      hide MemPool.Valid, OrdersOk, LevelsOk, MirrorOk;
      IndexedLevel(levelPool.storage[..], priceIndex[..], orderPool.storage[..], oidToOrder[..], mirror, p);
      FirstsSame(orderPool.storage[..], oidToOrder[..], mirror);
      assert QueueOk(mirror, p) by {
        QueueIsOk(mirror, p);
      }
    }

    /** The `k`th order of a queue and what follows it on its ring. */
    lemma QueueNode(p: int, k: nat)
      requires Shape() && Shown() && p in mirror.queues && k < |mirror.queues[p]|
      ensures var q: seq<nat> := mirror.queues[p];
              && q[k] in mirror.entries && q[k] < oidToOrder.Length && q[Next(k, |q|)] < oidToOrder.Length
              && orderPool.IsLive(oidToOrder[q[k]])
              && orderPool.Get(oidToOrder[q[k]]).value.entry == mirror.entries[q[k]]
              && mirror.entries[q[k]].quantity < QUANTITY_MODULUS
              && orderPool.Get(oidToOrder[q[k]]).next == oidToOrder[q[Next(k, |q|)]]
    {
      hide MemPool.Valid, OrdersOk, LevelsOk, Firsts, MirrorOk;
      QueueStep(orderPool.storage[..], oidToOrder[..], mirror, p, k);
    }

    lemma Distinct(p: int, k: nat)
      requires Shape() && Shown() && p in mirror.queues && 0 < k < |mirror.queues[p]|
      ensures var q: seq<nat> := mirror.queues[p];
              q[0] < oidToOrder.Length && q[k] < oidToOrder.Length && oidToOrder[q[0]] != oidToOrder[q[k]]
    {
      hide MemPool.Valid, OrdersOk, LevelsOk, Firsts, MirrorOk;
      DistinctQueue(orderPool.storage[..], oidToOrder[..], mirror, p, k);
    }

    /** Total quantity queued at a level, in 32 bits, by a walk round its ring. */
    method LevelQuantity(level: int, ghost p: int) returns (quantity: nat)
      requires Shape() && Shown() && p in mirror.queues && 0 <= p < priceIndex.Length && level == priceIndex[p]
      ensures quantity == SumQuantity(mirror.entries, mirror.queues[p]) % 0x1_0000_0000
    {
      hide Shape, Shown, SumQuantity;
      ghost var q: seq<nat> := mirror.queues[p];
      FirstOfLevel(p);
      QueueNode(p, 0);
      var first := levelPool.Get(level).value.firstOrder;
      SumPrefix(mirror.entries, q, 0);
      quantity := orderPool.Get(first).value.entry.quantity;
      var order := orderPool.Get(first).next;
      ghost var k: nat := 1;
      while order != first
        invariant Shape() && Shown()
        invariant 1 <= k <= |q| && q[if k == |q| then 0 else k] < oidToOrder.Length
        invariant order == oidToOrder[q[if k == |q| then 0 else k]]
        invariant quantity == SumQuantity(mirror.entries, q[..k]) % 0x1_0000_0000
        decreases |q| - k
      {
        QueueNode(p, k);
        SumPrefix(mirror.entries, q, k);
        quantity := (quantity + orderPool.Get(order).value.entry.quantity) % 0x1_0000_0000;
        order := orderPool.Get(order).next;
        k := k + 1;
      }
      if k < |q| {
        Distinct(p, k);
      }
      assert q[..|q|] == q;
    }

    /** The top of one side, read off its best level. */
    method ReadTop(side: Direction) returns (price: int, quantity: nat)
      requires Shape() && Shown()
      ensures (price, quantity) == Top(mirror, side)
    {
      hide MemPool.Valid, OrdersOk, LevelsOk, Firsts, MirrorOk, SumQuantity;
      HeadIsBest(levelPool.storage[..], priceIndex[..], orderPool.storage[..], oidToOrder[..], mirror, side);
      var best := BestHead(side);
      if best != NULL {
        price := levelPool.Get(best).value.price;
        quantity := LevelQuantity(best, price);
      } else {
        price, quantity := 0, 0;
      }
    }

    /** Refreshes the sides asked for. */
    method UpdateBBO(updateBid: bool, updateAsk: bool)
      requires Shape() && Shown()
      modifies this`bbo
      ensures Shape() && Shown()
      ensures bbo == BBO(if updateBid then Top(mirror, BUY).0 else old(bbo).bidPrice,
                         if updateAsk then Top(mirror, SELL).0 else old(bbo).askPrice,
                         if updateBid then Top(mirror, BUY).1 else old(bbo).bidQuantity,
                         if updateAsk then Top(mirror, SELL).1 else old(bbo).askQuantity)
    {
      hide MemPool.Valid, OrdersOk, LevelsOk, Firsts, MirrorOk, Top;
      if updateBid {
        var price, quantity := ReadTop(BUY);
        bbo := bbo.(bidPrice := price, bidQuantity := quantity);
      }
      if updateAsk {
        var price, quantity := ReadTop(SELL);
        bbo := bbo.(askPrice := price, askQuantity := quantity);
      }
    }

    ghost predicate Valid()
      reads this, Repr()
    {
      Shape() && Shown() && orderPool.inUse == |mirror.entries| && bbo == TopOfBook(mirror)
    }

    /** Returns every order node to its pool, once each, and empties the id index. */
    method ClearOrders()
      requires Shape() && MirrorOk(mirror) && Orders(mirror.entries, mirror.queues)
      requires orderPool.inUse == |mirror.entries|
      modifies orderPool, orderPool.storage, oidToOrder
      ensures Shape() && orderPool.inUse == 0
      ensures forall id :: 0 <= id < oidToOrder.Length ==> oidToOrder[id] == NULL
    {
      hide MemPool.Valid, MirrorOk;
      ghost var m, os, oid := mirror, orderPool.storage[..], oidToOrder[..];
      assert From(m.entries.Keys, 0) == m.entries.Keys;
      for id := 0 to oidToOrder.Length
        invariant Shape() && oidToOrder[..] == oid
        invariant orderPool.inUse == |From(m.entries.Keys, id)|
        invariant forall k :: k in m.entries && k >= id ==> Keyed(os, oid, k) && orderPool.storage[oid[k]] == os[oid[k]]
      {
        StepFrom(os, oid, m.entries, m.queues, id);
        if oidToOrder[id] != NULL {
          orderPool.Deallocate(oidToOrder[id]);
        }
      }
      IdsBelow(os, oid, m.entries, m.queues);
      forall id | 0 <= id < oidToOrder.Length {
        oidToOrder[id] := NULL;
      }
    }

    /** Returns every level node to its pool, once each, and empties the price index. */
    method ClearLevels(ghost bids: seq<int>, ghost asks: seq<int>, ghost firsts: map<int, int>)
      requires Shape() && Levels(bids, asks, firsts) && levelPool.inUse == |firsts|
      modifies this`bidsByPrice, this`asksByPrice, levelPool, levelPool.storage, priceIndex
      ensures Shape() && levelPool.inUse == 0 && bidsByPrice == NULL == asksByPrice
      ensures forall p :: 0 <= p < priceIndex.Length ==> priceIndex[p] == NULL
    {
      hide MemPool.Valid, SortedPrices;
      ghost var ls, idx := levelPool.storage[..], priceIndex[..];
      LevelRings(ls, idx, bids, asks, firsts);
      hide LevelsOk;
      if bidsByPrice != NULL {
        FreeRing(levelPool, bidsByPrice, idx, bids);
      }
      AsksRemain(ls, levelPool.storage[..], idx, bids, asks);
      if asksByPrice != NULL {
        FreeRing(levelPool, asksByPrice, idx, asks);
      }
      bidsByPrice, asksByPrice := NULL, NULL;
      forall p | 0 <= p < priceIndex.Length {
        priceIndex[p] := NULL;
      }
    }

    /** Empties the book. */
    method Clear()
      requires Shape() && Shown() && orderPool.inUse == |mirror.entries|
      modifies this`bidsByPrice, this`asksByPrice, this`mirror, Repr()
      ensures Shape() && Shown() && orderPool.inUse == 0 == levelPool.inUse && mirror == NO_MIRROR
    {
      hide MemPool.Valid, OrdersOk, LevelsOk, Firsts, MirrorOk;
      ghost var m, firsts := mirror, Firsts(oidToOrder[..], mirror.queues);
      FirstsKeys(m, oidToOrder[..]) by {
        FirstsSame(orderPool.storage[..], oidToOrder[..], m);
      }
      assert |firsts| == |firsts.Keys| == |m.queues|;
      ClearOrders();
      ClearLevels(m.bids, m.asks, firsts);
      mirror := NO_MIRROR;
      NothingHeld(orderPool.storage[..], oidToOrder[..], levelPool.storage[..], priceIndex[..]);
    }

    /** The test whether a side's top must be refreshed, read off the best level's node. */
    method TouchesSide(u: Update, side: Direction) returns (touches: bool)
      requires Shape() && Shown()
      ensures touches == Touches(mirror, u, side)
    {
      hide MemPool.Valid, OrdersOk, LevelsOk, Firsts, MirrorOk;
      HeadIsBest(levelPool.storage[..], priceIndex[..], orderPool.storage[..], oidToOrder[..], mirror, side);
      var best := BestHead(side);
      touches := u.kind == CLEAR
          || (u.side == side && (best == NULL || !IsWorse(side, u.price, levelPool.Get(best).value.price)));
    }

    /** A new order takes a node from the pool, which is never exhausted. */
    method Insert(u: Update)
      requires Shape() && Shown() && orderPool.inUse == |mirror.entries| && u.kind == ADD && Acceptable(mirror, u)
      modifies this`bidsByPrice, this`asksByPrice, this`mirror, Repr()
      ensures Shape() && Shown() && orderPool.inUse == |mirror.entries| && mirror == ApplyMirror(old(mirror), u)
    {
      hide MemPool.Valid, OrdersOk, LevelsOk, Firsts, MirrorOk, MirrorSpecs.AddOrder;
      ghost var m, os := mirror, orderPool.storage[..];
      OrderAdded(m, u.side, u.orderId, Entry(u.side, u.price, u.quantity, u.priority));
      OrdersFit(m);
      HasRoom(orderPool);
      var order := orderPool.Allocate(
        Node(MarketOrder(u.orderId, Entry(u.side, u.price, u.quantity, u.priority)), NULL, NULL));
      FreshOrder(os, oidToOrder[..], m.entries, m.queues, order, orderPool.storage[order]);
      AddOrder(order);
    }

    /** An order's quantity is overwritten in its node. */
    method Revise(u: Update)
      requires Shape() && Shown() && u.kind == MODIFY && Acceptable(mirror, u)
      modifies this`mirror, orderPool.storage
      ensures Shape() && Shown() && mirror == ApplyMirror(old(mirror), u)
      ensures |mirror.entries| == |old(mirror).entries|
    {
      hide MemPool.Valid, LevelsOk, Firsts, MirrorOk;
      ghost var m, os, oid := mirror, orderPool.storage[..], oidToOrder[..];
      assert OrderAt(os, oid, u.orderId, m.entries[u.orderId]);
      hide OrdersOk;
      var order := oidToOrder[u.orderId];
      var node := orderPool.Get(order);
      orderPool.Set(order, node.(value := node.value.(entry := node.value.entry.(quantity := u.quantity))));
      mirror := ModifyOrder(m, u.orderId, u.quantity);
      ReviseOrder(os, orderPool.storage[..], oid, m, u.orderId, mirror.entries[u.orderId]);
      assert mirror.entries.Keys == m.entries.Keys;
      ModifyKeeps(m, u);
    }

    lemma IndexedOrder(id: nat)
      requires Shape() && Shown() && id in mirror.entries
      ensures id < oidToOrder.Length && OrderAt(orderPool.storage[..], oidToOrder[..], id, mirror.entries[id])
    {
      hide MemPool.Valid, LevelsOk, Firsts, MirrorOk;
      assert OrderAt(orderPool.storage[..], oidToOrder[..], id, mirror.entries[id]);
    }

    /** An order's node is found through the id index and taken out. */
    method Withdraw(u: Update)
      requires Shape() && Shown() && orderPool.inUse == |mirror.entries| && u.kind == CANCEL && Acceptable(mirror, u)
      modifies this`bidsByPrice, this`asksByPrice, this`mirror, Repr()
      ensures Shape() && Shown() && orderPool.inUse == |mirror.entries| && mirror == ApplyMirror(old(mirror), u)
    {
      hide MemPool.Valid, OrdersOk, LevelsOk, Firsts, MirrorOk, Rank, IndexOf;
      IndexedOrder(u.orderId);
      RemoveOrder(oidToOrder[u.orderId], u.orderId);
    }

    /** The switch over the kinds of update; `known` is false for those that change nothing. */
    method Switch(u: Update) returns (known: bool)
      requires Shape() && Shown() && orderPool.inUse == |mirror.entries| && Acceptable(mirror, u)
      modifies this`bidsByPrice, this`asksByPrice, this`mirror, Repr()
      ensures Shape() && Shown() && orderPool.inUse == |mirror.entries| && mirror == ApplyMirror(old(mirror), u)
      ensures !known ==> mirror == old(mirror)
    {
      hide MemPool.Valid, OrdersOk, LevelsOk, Firsts, MirrorOk;
      match u.kind {
        case ADD => Insert(u);
        case MODIFY => Revise(u);
        case CANCEL => Withdraw(u);
        case CLEAR => Clear();
        case _ => return false;
      }
      return true;
    }

    /** Takes in one update. The book shows what the update says, and the best bid and offer
        are those of the whole book even when only one side, or none, is refreshed. */
    method OnMarketUpdate(u: Update)
      requires Valid() && Acceptable(mirror, u)
      modifies this, Repr()
      ensures Valid() && mirror == ApplyMirror(old(mirror), u)
    {
      hide Shape, Shown, MirrorOk, Top, Acceptable, ApplyMirror, Touches;
      ghost var m := mirror;
      assert MirrorOk(m) by {
        ShownOk();
      }
      var bidUpdated := TouchesSide(u, BUY);
      var askUpdated := TouchesSide(u, SELL);
      var known := Switch(u);
      if !known {
        return;
      }
      if !bidUpdated {
        UntouchedTop(m, u, BUY);
      }
      if !askUpdated {
        UntouchedTop(m, u, SELL);
      }
      UpdateBBO(bidUpdated, askUpdated);
    }

    lemma ShownOk()
      requires Shown()
      ensures MirrorOk(mirror)
    {
    }

  }

  predicate IsWorse(side: Direction, price: int, other: int) {
    (side == SELL && price > other) || (side == BUY && price < other)
  }

  ghost predicate PriceAt(ls: LevelNodes, idx: seq<int>, p: int) {
    Keyed(ls, idx, p) && ls[idx[p]].value.value.price == p
  }

  lemma {:induction false} RankIs(side: Direction, prices: seq<int>, p: int, k: nat)
    requires k <= |prices| && forall i :: 0 <= i < k ==> Better(side, prices[i], p)
    requires k < |prices| ==> !Better(side, prices[k], p)
    ensures Rank(side, prices, p) == k
  {
    if k == 0 {
    } else {
      RankIs(side, prices[1..], p, k - 1);
    }
  }

  /** What the search needs to know about the levels of one side. */
  lemma SidePrices(ls: LevelNodes, idx: seq<int>, bids: seq<int>, asks: seq<int>, firsts: map<int, int>,
                   side: Direction, s: int)
    requires LevelsOk(ls, idx, bids, asks, firsts) && Loose(idx, s)
    ensures var prices := OnSide(side, bids, asks);
            && Ring(ls, idx, prices) && SortedPrices(side, prices)
            && (forall x :: x in prices ==> x in firsts && 0 <= x < |idx|)
            && (forall x :: x in OnSide(Opposite(side), bids, asks) ==> x in firsts)
            && (forall j :: 0 <= j < |prices| ==> PriceAt(ls, idx, prices[j]) && idx[prices[j]] != s)
            && (Head(idx, prices) == NULL <==> prices == [])
  {
    hide Ring, SortedPrices;
    var prices := OnSide(side, bids, asks);
    forall x | x in prices
      ensures x in firsts && 0 <= x < |idx| && idx[x] != s && PriceAt(ls, idx, x)
    {
      LevelBySide(ls, idx, bids, asks, firsts, side, x);
    }
  }

  lemma EmptyInsert(side: Direction, p: int)
    ensures InsertPrice(side, [], p) == [p]
  {
  }

  lemma HeadAfterInsert(idx: seq<int>, idx': seq<int>, side: Direction, prices: seq<int>, p: int, s: int)
    requires 0 <= p < |idx| && idx' == idx[p := s] && p !in prices
    requires forall x :: x in prices ==> 0 <= x < |idx|
    ensures Head(idx', InsertPrice(side, prices, p)) == if Rank(side, prices, p) == 0 then s else Head(idx, prices)
  {
  }

  lemma HeadKept(idx: seq<int>, idx': seq<int>, prices: seq<int>, p: int)
    requires 0 <= p < |idx| && |idx'| == |idx| && idx' == idx[p := idx'[p]] && p !in prices
    ensures Head(idx', prices) == Head(idx, prices)
  {
  }

  /** A level's place in the ring of its side. */
  lemma SideLevel(ls: LevelNodes, idx: seq<int>, bids: seq<int>, asks: seq<int>, firsts: map<int, int>,
                  side: Direction, p: int)
    requires LevelsOk(ls, idx, bids, asks, firsts) && p in OnSide(side, bids, asks)
    ensures var prices := OnSide(side, bids, asks);
            var k, n := Rank(side, prices, p), |prices|;
            && k < n && prices[k] == p && Keyed(ls, idx, p) && 0 <= prices[0] < |idx|
            && (forall i :: 0 <= i < n ==> 0 <= prices[i] < |idx| && (i != k ==> prices[i] != p))
            && p !in OnSide(Opposite(side), bids, asks)
            && var node := ls[idx[p]].value;
               && IsNode(ls, node.prev) && IsNode(ls, node.next)
               && 0 <= prices[Next(k, n)] < |idx| && node.next == idx[prices[Next(k, n)]]
               && (node.next == idx[p] <==> n == 1)
               && (node.prev == idx[p] <==> n == 1)
               && (idx[p] == idx[prices[0]] <==> k == 0)
  {
    hide SortedPrices, LevelAt, Ring;
    var prices := OnSide(side, bids, asks);
    RankSplits(side, prices, p);
    hide Rank;
    var k, n := Rank(side, prices, p), |prices|;
    RingNeighbours(ls, idx, prices, k);
    RingDistinct(ls, idx, prices, k);
    forall i | 0 <= i < n
      ensures 0 <= prices[i] < |idx|
    {
      assert Keyed(ls, idx, prices[i]);
    }
  }

  lemma FreedBypass<V>(store: Store<V>, store': Store<V>, s: int, link: int)
    requires Bypassed(store, store', s)
    ensures Bypassed(store, store'[s := Free(link)], s)
  {
  }

  lemma NoBypass<V>(store: Store<V>, s: int)
    requires IsNode(store, s) && store[s].value.prev == s == store[s].value.next
    ensures Bypassed(store, store, s)
  {
    forall i | 0 <= i < |store| && i != s
      ensures store[i] == JoinedBlock(store[i], i, s, s)
    {
    }
  }

  lemma HeadAfterRemove(idx: seq<int>, idx': seq<int>, prices: seq<int>, k: nat, p: int)
    requires 0 <= p < |idx| && idx' == idx[p := NULL] && k < |prices| && prices[k] == p
    requires forall i :: 0 <= i < |prices| ==> 0 <= prices[i] < |idx| && (i != k ==> prices[i] != p)
    ensures Head(idx', Without(prices, k))
         == if |prices| == 1 then NULL else if k == 0 then idx[prices[1]] else idx[prices[0]]
  {
  }

  /** The levels and the heads of the two sides once a level has left its ring. */
  lemma LevelGone(ls: LevelNodes, ls': LevelNodes, idx: seq<int>, bids: seq<int>, asks: seq<int>, firsts: map<int, int>,
                  side: Direction, p: int)
    requires LevelsOk(ls, idx, bids, asks, firsts) && p in OnSide(side, bids, asks)
    requires 0 <= p < |idx| && Bypassed(ls, ls', idx[p])
    ensures var prices, others, idx' := OnSide(side, bids, asks), OnSide(Opposite(side), bids, asks), idx[p := NULL];
            var k := Rank(side, prices, p);
            && k < |prices|
            && (if side == BUY then LevelsOk(ls', idx', Without(prices, k), asks, firsts - {p})
                else LevelsOk(ls', idx', bids, Without(prices, k), firsts - {p}))
            && Head(idx', others) == Head(idx, others)
            && Head(idx', Without(prices, k))
               == if ls[idx[p]].value.next == idx[p] then NULL
                  else if Head(idx, prices) == idx[p] then ls[idx[p]].value.next else Head(idx, prices)
  {
    hide SortedPrices, Rank, Bypassed, Ring;
    var prices := OnSide(side, bids, asks);
    SideLevel(ls, idx, bids, asks, firsts, side, p);
    RemoveLevel(ls, ls', idx, idx[p := NULL], bids, asks, firsts, side, p);
    hide LevelsOk;
    HeadAfterRemove(idx, idx[p := NULL], prices, Rank(side, prices, p), p);
    HeadKept(idx, idx[p := NULL], OnSide(Opposite(side), bids, asks), p);
  }

  /** The orders and the mirror once an order has left its ring. */
  lemma OrderGone(os: OrderNodes, os': OrderNodes, oid: seq<int>, m: Mirror, id: nat)
    requires MirrorOk(m) && OrdersOk(os, oid, m.entries, m.queues) && id in m.entries
    requires id < |oid| && Bypassed(os, os', oid[id])
    ensures var m' := CancelOrder(m, id); MirrorOk(m') && OrdersOk(os', oid[id := NULL], m'.entries, m'.queues)
  {
    hide OrdersOk, MirrorOk, Rank, Bypassed;
    OrderPlace(m, id);
    QueuePlace(os, oid, m, id);
    UnlinkOrder(os, os', oid, oid[id := NULL], m, id, IndexOf(m.queues[m.entries[id].price], id));
    hide IndexOf;
    RemoveKeeps(m, Update(CANCEL, 0, id, m.entries[id].side, m.entries[id].price, 0, 0));
  }

  /** The mirror once a new order is queued. */
  lemma OrderAdded(m: Mirror, side: Direction, id: nat, e: Entry)
    requires MirrorOk(m) && e.side == side && 0 <= e.price < MAX_PRICE_LEVELS && e.quantity < QUANTITY_MODULUS
    requires 1 <= id < MAX_ORDER_IDS && forall k :: k in m.entries ==> k < id
    requires e.price in m.queues ==> e.price in PricesOf(m, side)
    ensures var m' := MirrorSpecs.AddOrder(m, side, id, e);
            MirrorOk(m') && |m'.entries| == |m.entries| + 1
  {
    AddKeeps(m, Update(ADD, 0, id, side, e.price, e.quantity, e.priority));
  }

  /** The last order of a queue precedes the first one on their ring. */
  lemma FirstAndLast(os: OrderNodes, oid: seq<int>, m: Mirror, p: int)
    requires MirrorOk(m) && OrdersOk(os, oid, m.entries, m.queues) && p in m.queues
    ensures var q := m.queues[p];
            && q != [] && Keyed(os, oid, q[0]) && Keyed(os, oid, q[|q| - 1])
            && os[oid[q[0]]].value.prev == oid[q[|q| - 1]] && os[oid[q[|q| - 1]]].value.next == oid[q[0]]
  {
    var q := m.queues[p];
    assert QueueOk(m, p);
    RingStep(os, oid, q, 0);
    RingStep(os, oid, q, |q| - 1);
  }

  lemma FirstsSame(os: OrderNodes, oid: seq<int>, m: Mirror)
    requires MirrorOk(m) && OrdersOk(os, oid, m.entries, m.queues)
    ensures |oid| == MAX_ORDER_IDS
    ensures forall p :: p in m.queues <==> p in Firsts(oid, m.queues)
  {
    FirstsKeys(m, oid);
    hide Firsts, MirrorOk;
    assert forall p :: p in Firsts(oid, m.queues) ==> p in Firsts(oid, m.queues).Keys;
    assert forall p :: p in m.queues ==> p in m.queues.Keys;
  }

  /** The price index is null exactly where no order is queued, and elsewhere leads to a
      level that knows its first order. */
  lemma IndexedLevel(ls: LevelNodes, idx: seq<int>, os: OrderNodes, oid: seq<int>, m: Mirror, p: int)
    requires MirrorOk(m) && OrdersOk(os, oid, m.entries, m.queues)
    requires LevelsOk(ls, idx, m.bids, m.asks, Firsts(oid, m.queues)) && 0 <= p < MAX_PRICE_LEVELS
    ensures |idx| == MAX_PRICE_LEVELS && (idx[p] == NULL <==> p !in m.queues)
    ensures p in m.queues ==>
              && p in Firsts(oid, m.queues) && IsNode(ls, idx[p])
              && ls[idx[p]].value.value == OrdersAtPrice(SideAt(m.bids, p), p, Firsts(oid, m.queues)[p])
  {
    FirstsSame(os, oid, m);
    hide Firsts, OrdersOk, MirrorOk, Ring, SortedPrices;
    if p in m.queues {
      assert LevelAt(ls, idx, p, SideAt(m.bids, p), Firsts(oid, m.queues)[p]);
    }
  }

  /** An order's place in the ring of its queue. */
  lemma QueuePlace(os: OrderNodes, oid: seq<int>, m: Mirror, id: nat)
    requires MirrorOk(m) && OrdersOk(os, oid, m.entries, m.queues) && id in m.entries
    requires m.entries[id].price in m.queues && id in m.queues[m.entries[id].price]
    ensures var q := m.queues[m.entries[id].price];
            var k, n := IndexOf(q, id), |q|;
            && k < n && q[k] == id && OrderAt(os, oid, id, m.entries[id])
            && 0 <= m.entries[id].price < MAX_PRICE_LEVELS
            && var node := os[oid[id]].value;
               && IsNode(os, node.prev) && IsNode(os, node.next)
               && q[Next(k, n)] < |oid| && node.next == oid[q[Next(k, n)]] && q[0] < |oid|
               && (node.next == oid[id] <==> n == 1)
               && (node.prev == oid[id] <==> n == 1)
               && (oid[q[0]] == oid[id] <==> k == 0)
  {
    hide IndexOf, MirrorOk, OrdersOk, Ring;
    QueueRing(os, oid, m, id);
    RingNeighbours(os, oid, m.queues[m.entries[id].price], IndexOf(m.queues[m.entries[id].price], id));
  }

  /** The queue of an order is a ring of which the order is a member. */
  lemma QueueRing(os: OrderNodes, oid: seq<int>, m: Mirror, id: nat)
    requires MirrorOk(m) && OrdersOk(os, oid, m.entries, m.queues) && id in m.entries
    requires m.entries[id].price in m.queues && id in m.queues[m.entries[id].price]
    ensures var q := m.queues[m.entries[id].price];
            && Ring(os, oid, q) && IndexOf(q, id) < |q| && q[IndexOf(q, id)] == id
            && OrderAt(os, oid, id, m.entries[id]) && 0 <= m.entries[id].price < MAX_PRICE_LEVELS
  {
    hide Ring;
    assert OrderAt(os, oid, id, m.entries[id]) && QueueOk(m, m.entries[id].price);
  }

  lemma FirstsAfterLast(m: Mirror, oid: seq<int>, id: nat)
    requires MirrorOk(m) && |oid| == MAX_ORDER_IDS && id in m.entries && id < |oid|
    ensures Firsts(oid[id := NULL], m.queues - {m.entries[id].price}) == Firsts(oid, m.queues) - {m.entries[id].price}
  {
    forall x | x in m.queues && x != m.entries[id].price
      ensures m.queues[x] != [] && m.queues[x][0] != id && m.queues[x][0] < |oid|
    {
      assert QueueOk(m, x);
      QueuedEntry(m, x, m.queues[x][0]);
    }
  }

  lemma FirstsAfterLeave(m: Mirror, oid: seq<int>, id: nat)
    requires MirrorOk(m) && |oid| == MAX_ORDER_IDS && id in m.entries && id < |oid|
    requires m.entries[id].price in m.queues && id in m.queues[m.entries[id].price]
    requires |m.queues[m.entries[id].price]| > 1
    ensures var p := m.entries[id].price;
            var q := Without(m.queues[p], IndexOf(m.queues[p], id));
            && q != [] && q[0] < |oid|
            && Firsts(oid[id := NULL], m.queues[p := q]) == Firsts(oid, m.queues)[p := oid[q[0]]]
  {
    var p := m.entries[id].price;
    var q := Without(m.queues[p], IndexOf(m.queues[p], id));
    assert QueueOk(m, p);
    WithoutIncreasing(m.queues[p], IndexOf(m.queues[p], id));
    assert q[0] in m.queues[p] && q[0] != id;
    QueuedEntry(m, p, q[0]);
    FirstsAfterLast(m, oid, id);
    hide MirrorOk, QueueOk, IndexOf, Without;
    FirstsReplaced(oid[id := NULL], m.queues, p, q);
  }

  lemma FirstsReplaced(oid: seq<int>, queues: map<int, seq<nat>>, p: int, q: seq<nat>)
    requires q != [] && q[0] < |oid|
    ensures Firsts(oid, queues[p := q]) == Firsts(oid, queues - {p})[p := oid[q[0]]]
  {
  }

  /** One step of a walk round the ring of a queue. */
  lemma QueueStep(os: OrderNodes, oid: seq<int>, m: Mirror, p: int, k: nat)
    requires MirrorOk(m) && OrdersOk(os, oid, m.entries, m.queues) && p in m.queues && k < |m.queues[p]|
    ensures var q: seq<nat> := m.queues[p];
            && q[k] in m.entries && OrderAt(os, oid, q[k], m.entries[q[k]])
            && q[k] < |oid| && q[0] < |oid| && (k + 1 < |q| ==> q[k + 1] < |oid|)
            && os[oid[q[k]]].value.next == oid[q[Next(k, |q|)]]
            && m.entries[q[k]].quantity < QUANTITY_MODULUS
  {
    var q: seq<nat> := m.queues[p];
    assert QueueOk(m, p) && InQueue(m, p, q[k]);
    assert OrderAt(os, oid, q[k], m.entries[q[k]]);
    RingStep(os, oid, q, k);
    assert Keyed(os, oid, q[0]) && Keyed(os, oid, q[Next(k, |q|)]);
  }

  lemma DistinctQueue(os: OrderNodes, oid: seq<int>, m: Mirror, p: int, k: nat)
    requires MirrorOk(m) && OrdersOk(os, oid, m.entries, m.queues) && p in m.queues && 0 < k < |m.queues[p]|
    ensures var q: seq<nat> := m.queues[p]; q[0] < |oid| && q[k] < |oid| && oid[q[0]] != oid[q[k]]
  {
    var q: seq<nat> := m.queues[p];
    assert Ring(os, oid, q);
    assert Keyed(os, oid, q[0]) && Keyed(os, oid, q[k]);
  }

  lemma SumPrefix(entries: map<nat, Entry>, q: seq<nat>, k: nat)
    requires k < |q| && q[k] in entries
    ensures SumQuantity(entries, q[..k + 1]) == SumQuantity(entries, q[..k]) + entries[q[k]].quantity
    ensures SumQuantity(entries, q[..0]) == 0
  {
    assert q[..k + 1][..k] == q[..k];
  }

  /** The head of a side is null when the side is empty and otherwise its best level. */
  lemma HeadIsBest(ls: LevelNodes, idx: seq<int>, os: OrderNodes, oid: seq<int>, m: Mirror, side: Direction)
    requires MirrorOk(m) && OrdersOk(os, oid, m.entries, m.queues)
    requires LevelsOk(ls, idx, m.bids, m.asks, Firsts(oid, m.queues))
    ensures var prices := PricesOf(m, side);
            if prices == [] then Head(idx, prices) == NULL
            else
              && 0 <= prices[0] < |idx| && prices[0] in m.queues && Head(idx, prices) == idx[prices[0]] != NULL
              && IsNode(ls, idx[prices[0]]) && ls[idx[prices[0]]].value.value.price == prices[0]
  {
    var prices := PricesOf(m, side);
    FirstsSame(os, oid, m);
    hide Firsts, MirrorOk, OrdersOk;
    if prices != [] {
      LevelBySide(ls, idx, m.bids, m.asks, Firsts(oid, m.queues), side, prices[0]);
    }
  }

  // ----- clearing -----

  ghost function From(ids: set<nat>, id: nat): set<nat> {
    set k | k in ids && k >= id
  }

  lemma StepFrom(os: OrderNodes, oid: seq<int>, entries: map<nat, Entry>, queues: map<int, seq<nat>>, id: nat)
    requires OrdersOk(os, oid, entries, queues) && id < |oid|
    ensures oid[id] != NULL <==> id in entries
    ensures |From(entries.Keys, id + 1)| == |From(entries.Keys, id)| - if id in entries then 1 else 0
    ensures id in entries ==> Keyed(os, oid, id)
    ensures id in entries ==> forall k :: k in entries && k > id ==> Keyed(os, oid, k) && oid[k] != oid[id]
  {
    hide Ring;
    if id in entries {
      assert OrderAt(os, oid, id, entries[id]);
      assert From(entries.Keys, id) == From(entries.Keys, id + 1) + {id};
      forall k | k in entries && k > id
        ensures Keyed(os, oid, k) && oid[k] != oid[id]
      {
        assert OrderAt(os, oid, k, entries[k]);
      }
    } else {
      assert From(entries.Keys, id) == From(entries.Keys, id + 1);
    }
  }

  lemma IdsBelow(os: OrderNodes, oid: seq<int>, entries: map<nat, Entry>, queues: map<int, seq<nat>>)
    requires OrdersOk(os, oid, entries, queues)
    ensures From(entries.Keys, |oid|) == {}
    ensures forall k :: k in entries ==> Keyed(os, oid, k)
  {
    hide Ring;
    forall k | k in entries
      ensures Keyed(os, oid, k)
    {
      assert OrderAt(os, oid, k, entries[k]);
    }
    assert From(entries.Keys, |oid|) <= {};
  }

  lemma LevelCount(bids: seq<int>, asks: seq<int>, firsts: map<int, int>)
    requires SortedPrices(BUY, bids) && SortedPrices(SELL, asks)
    requires (forall p :: p in bids || p in asks <==> p in firsts) && forall p :: p in bids ==> p !in asks
    ensures |firsts| == |bids| + |asks|
  {
    SortedDistinct(BUY, bids);
    SortedDistinct(SELL, asks);
    DistinctCardinality(bids);
    DistinctCardinality(asks);
    var b, a := set p | p in bids, set p | p in asks;
    assert forall p :: p in firsts.Keys <==> p in b + a;
    assert b !! a && |b + a| == |b| + |a|;
    assert firsts.Keys == b + a;
  }

  /** The rings of the two sides hold every level, and each once. */
  lemma LevelRings(ls: LevelNodes, idx: seq<int>, bids: seq<int>, asks: seq<int>, firsts: map<int, int>)
    requires LevelsOk(ls, idx, bids, asks, firsts)
    ensures Ring(ls, idx, bids) && Ring(ls, idx, asks)
    ensures |firsts| == |bids| + |asks|
    ensures Head(idx, bids) == NULL <==> bids == []
    ensures Head(idx, asks) == NULL <==> asks == []
    ensures forall i :: 0 <= i < |bids| ==> 0 <= bids[i] < |idx|
    ensures forall j :: 0 <= j < |asks| ==> 0 <= asks[j] < |idx|
    ensures forall i, j :: 0 <= i < |bids| && 0 <= j < |asks| ==> idx[bids[i]] != idx[asks[j]]
  {
    hide Ring, SortedPrices;
    LevelCount(bids, asks, firsts);
    hide LevelAt;
    forall p | p in firsts
      ensures 0 <= p < |idx| && idx[p] != NULL
    {
      KeyedLevel(ls, idx, p, SideAt(bids, p), firsts[p]);
    }
    assert forall i :: 0 <= i < |bids| ==> bids[i] in firsts;
    assert forall j :: 0 <= j < |asks| ==> asks[j] in firsts && asks[j] !in bids;
    forall i, j | 0 <= i < |bids| && 0 <= j < |asks|
      ensures idx[bids[i]] != idx[asks[j]]
    {
      DistinctLevels(ls, idx, bids, asks, firsts, bids[i], asks[j]);
    }
  }

  lemma KeyedLevel(ls: LevelNodes, idx: seq<int>, p: int, side: Direction, first: int)
    requires LevelAt(ls, idx, p, side, first)
    ensures 0 <= p < |idx| && idx[p] != NULL
  {
  }

  lemma NothingHeld(os: OrderNodes, oid: seq<int>, ls: LevelNodes, idx: seq<int>)
    requires |oid| == MAX_ORDER_IDS && forall i :: 0 <= i < |oid| ==> oid[i] == NULL
    requires |idx| == MAX_PRICE_LEVELS && forall i :: 0 <= i < |idx| ==> idx[i] == NULL
    ensures MirrorOk(NO_MIRROR) && OrdersOk(os, oid, map[], map[])
    ensures Firsts(oid, map[]) == map[] && LevelsOk(ls, idx, [], [], map[])
    ensures TopOfBook(NO_MIRROR) == NO_BBO
  {
  }

  /** Freeing the bids leaves the ring of the asks whole. */
  lemma AsksRemain(ls: LevelNodes, ls': LevelNodes, idx: seq<int>, bids: seq<int>, asks: seq<int>)
    requires Ring(ls, idx, asks) && |ls'| == |ls|
    requires forall i :: 0 <= i < |bids| ==> 0 <= bids[i] < |idx|
    requires forall j :: 0 <= j < |asks| ==> 0 <= asks[j] < |idx|
    requires forall i, j :: 0 <= i < |bids| && 0 <= j < |asks| ==> idx[bids[i]] != idx[asks[j]]
    requires forall s :: 0 <= s < |ls| && (forall j :: 0 <= j < |bids| ==> s != idx[bids[j]]) ==> ls'[s] == ls[s]
    ensures Ring(ls', idx, asks)
  {
    forall j | 0 <= j < |asks|
      ensures SameLinks(ls, ls', idx[asks[j]])
    {
      assert Keyed(ls, idx, asks[j]);
    }
    hide Ring;
    RingFrame(ls, ls', idx, idx, asks);
  }
}
