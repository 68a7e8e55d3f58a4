/** One side of an order book as a value: its resting orders in the order in which
    they will trade, and the priority counter of every tick. */
module HalfBooks {
  import opened Types
  import opened PriceBands

  datatype Resting = Resting(
    clientId: nat, clientOrderId: nat, marketOrderId: nat, tick: int, quantity: nat, priority: nat)

  /** `orders` runs from the best price to the worst, earliest arrival first;
      `nextPriority[t]` is what the next order at tick `t` will be given. */
  datatype Half = Half(orders: seq<Resting>, nextPriority: seq<nat>)

  function EmptyHalf(): Half {
    Half([], seq(TICK_COUNT, _ => 1))
  }

  predicate HasTick(orders: seq<Resting>, tick: int) {
    exists i :: 0 <= i < |orders| && orders[i].tick == tick
  }

  /** `a` trades before `b`: better price, or same price and earlier arrival. */
  predicate Before(side: Direction, a: Resting, b: Resting) {
    Better(side, a.tick, b.tick) || (a.tick == b.tick && a.priority < b.priority)
  }

  ghost predicate Sorted(side: Direction, orders: seq<Resting>) {
    forall i, j :: 0 <= i < j < |orders| ==> Before(side, orders[i], orders[j])
  }

  ghost predicate OrderFits(o: Resting, nextPriority: seq<nat>)
    requires |nextPriority| == TICK_COUNT
  {
    0 <= o.tick < TICK_COUNT && 1 <= o.priority < nextPriority[o.tick]
  }

  /** Price-time order, priorities below the counters, counters reset on empty ticks. */
  ghost predicate WellFormed(side: Direction, h: Half) {
    && |h.nextPriority| == TICK_COUNT
    && Sorted(side, h.orders)
    && (forall i :: 0 <= i < |h.orders| ==> OrderFits(h.orders[i], h.nextPriority))
    && (forall t :: 0 <= t < TICK_COUNT && !HasTick(h.orders, t) ==> h.nextPriority[t] == 1)
  }

  /** Resting quantities are positive and fit 32 bits. */
  ghost predicate Positive(orders: seq<Resting>) {
    forall i :: 0 <= i < |orders| ==> 0 < orders[i].quantity < QUANTITY_MODULUS
  }

  /** Total resting quantity at a tick. */
  function SumAt(orders: seq<Resting>, tick: int): nat {
    if orders == [] then 0
    else (if orders[0].tick == tick then orders[0].quantity else 0) + SumAt(orders[1..], tick)
  }

  /** How many orders trade before a newcomer at `tick`. */
  function InsertPos(side: Direction, orders: seq<Resting>, tick: int): (p: nat)
    ensures p <= |orders|
  {
    if orders == [] || Better(side, tick, orders[0].tick) then 0
    else 1 + InsertPos(side, orders[1..], tick)
  }

  /** A newcomer queues behind every order at its own price or better. */
  function Insert(side: Direction, h: Half, tick: int, clientId: nat, clientOrderId: nat,
                  marketOrderId: nat, quantity: nat): Half
    requires |h.nextPriority| == TICK_COUNT && 0 <= tick < TICK_COUNT
  {
    var p := InsertPos(side, h.orders, tick);
    var x := Resting(clientId, clientOrderId, marketOrderId, tick, quantity, h.nextPriority[tick]);
    Half(h.orders[..p] + [x] + h.orders[p..], h.nextPriority[tick := h.nextPriority[tick] + 1])
  }

  function FillAt(h: Half, i: nat, quantity: nat): Half
    requires i < |h.orders| && quantity <= h.orders[i].quantity
  {
    h.(orders := h.orders[i := h.orders[i].(quantity := h.orders[i].quantity - quantity)])
  }

  function RemoveAt(h: Half, i: nat): Half
    requires i < |h.orders| && |h.nextPriority| == TICK_COUNT && 0 <= h.orders[i].tick < TICK_COUNT
  {
    var rest := h.orders[..i] + h.orders[i + 1..];
    var t := h.orders[i].tick;
    Half(rest, if HasTick(rest, t) then h.nextPriority else h.nextPriority[t := 1])
  }

  lemma {:induction false} InsertPosSplits(side: Direction, orders: seq<Resting>, tick: int)
    requires Sorted(side, orders)
    ensures forall i :: 0 <= i < InsertPos(side, orders, tick) ==> !Better(side, tick, orders[i].tick)
    ensures forall i :: InsertPos(side, orders, tick) <= i < |orders| ==> Better(side, tick, orders[i].tick)
  {
    if orders == [] || Better(side, tick, orders[0].tick) {
    } else {
      assert forall i, j :: 0 <= i < j < |orders[1..]| ==> Before(side, orders[1..][i], orders[1..][j]);
      InsertPosSplits(side, orders[1..], tick);
    }
  }

  lemma InsertSorted(side: Direction, orders: seq<Resting>, x: Resting)
    requires Sorted(side, orders)
    requires forall i :: 0 <= i < |orders| && orders[i].tick == x.tick ==> orders[i].priority < x.priority
    ensures var p := InsertPos(side, orders, x.tick); Sorted(side, orders[..p] + [x] + orders[p..])
  {
    InsertPosSplits(side, orders, x.tick);
    hide InsertPos;
    var p := InsertPos(side, orders, x.tick);
    var orders' := orders[..p] + [x] + orders[p..];
    forall i, j | 0 <= i < j < |orders'|
      ensures Before(side, orders'[i], orders'[j])
    {
      if i != p && j != p {
        assert Before(side, orders[if i < p then i else i - 1], orders[if j < p then j else j - 1]);
      }
    }
  }

  lemma InsertFits(h: Half, p: nat, x: Resting)
    requires p <= |h.orders| && |h.nextPriority| == TICK_COUNT && 0 <= x.tick < TICK_COUNT
    requires 1 <= x.priority == h.nextPriority[x.tick]
    requires forall i :: 0 <= i < |h.orders| ==> OrderFits(h.orders[i], h.nextPriority)
    ensures var orders, counters := h.orders[..p] + [x] + h.orders[p..], h.nextPriority[x.tick := x.priority + 1];
            && (forall i :: 0 <= i < |orders| ==> OrderFits(orders[i], counters))
            && HasTick(orders, x.tick)
            && forall t :: HasTick(h.orders, t) ==> HasTick(orders, t)
  {
    var orders, counters := h.orders[..p] + [x] + h.orders[p..], h.nextPriority[x.tick := x.priority + 1];
    forall i | 0 <= i < |orders|
      ensures OrderFits(orders[i], counters)
    {
      assert i != p ==> OrderFits(h.orders[if i < p then i else i - 1], h.nextPriority);
    }
    assert orders[p].tick == x.tick;
    forall t | HasTick(h.orders, t)
      ensures HasTick(orders, t)
    {
      var k :| 0 <= k < |h.orders| && h.orders[k].tick == t;
      assert orders[if k < p then k else k + 1].tick == t;
    }
  }

  lemma InsertWellFormed(side: Direction, h: Half, tick: int, clientId: nat, clientOrderId: nat,
                         marketOrderId: nat, quantity: nat)
    requires WellFormed(side, h) && 0 <= tick < TICK_COUNT
    ensures WellFormed(side, Insert(side, h, tick, clientId, clientOrderId, marketOrderId, quantity))
  {
    hide InsertPos, Sorted, Before;
    var p, x := InsertPos(side, h.orders, tick),
      Resting(clientId, clientOrderId, marketOrderId, tick, quantity, h.nextPriority[tick]);
    forall i | 0 <= i < |h.orders| && h.orders[i].tick == tick
      ensures h.orders[i].priority < x.priority
    {
      assert OrderFits(h.orders[i], h.nextPriority);
    }
    assert x.priority >= 1 by {
      if HasTick(h.orders, tick) {
        var k :| 0 <= k < |h.orders| && h.orders[k].tick == tick;
        assert OrderFits(h.orders[k], h.nextPriority);
      }
    }
    InsertSorted(side, h.orders, x);
    InsertFits(h, p, x);
  }

  lemma FillWellFormed(side: Direction, h: Half, i: nat, quantity: nat)
    requires WellFormed(side, h) && i < |h.orders| && quantity <= h.orders[i].quantity
    ensures WellFormed(side, FillAt(h, i, quantity))
  {
    var h' := FillAt(h, i, quantity);
    assert forall k :: 0 <= k < |h.orders| ==>
      h'.orders[k].tick == h.orders[k].tick && h'.orders[k].priority == h.orders[k].priority;
    forall t | 0 <= t < TICK_COUNT && HasTick(h.orders, t)
      ensures HasTick(h'.orders, t)
    {
      var k :| 0 <= k < |h.orders| && h.orders[k].tick == t;
      assert h'.orders[k].tick == t;
    }
    forall k | 0 <= k < |h'.orders|
      ensures OrderFits(h'.orders[k], h'.nextPriority)
    {
      assert OrderFits(h.orders[k], h.nextPriority);
    }
  }

  lemma RemoveWellFormed(side: Direction, h: Half, i: nat)
    requires WellFormed(side, h) && i < |h.orders|
    ensures OrderFits(h.orders[i], h.nextPriority)
    ensures WellFormed(side, RemoveAt(h, i))
  {
    assert OrderFits(h.orders[i], h.nextPriority);
    RemoveSorted(side, h.orders, i);
    hide Sorted;
    var h' := RemoveAt(h, i);
    forall t | t != h.orders[i].tick
      ensures HasTick(h'.orders, t) <==> HasTick(h.orders, t)
    {
      OtherTicksStay(h.orders, i, t);
    }
    forall k | 0 <= k < |h'.orders|
      ensures OrderFits(h'.orders[k], h'.nextPriority)
    {
      assert OrderFits(h.orders[if k < i then k else k + 1], h.nextPriority);
      assert h'.orders[k].tick == h.orders[i].tick ==> HasTick(h'.orders, h.orders[i].tick);
    }
    hide HasTick, OrderFits;
  }

  lemma RemoveSorted(side: Direction, orders: seq<Resting>, i: nat)
    requires Sorted(side, orders) && i < |orders|
    ensures Sorted(side, orders[..i] + orders[i + 1..])
  {
    var rest := orders[..i] + orders[i + 1..];
    forall a, b | 0 <= a < b < |rest|
      ensures Before(side, rest[a], rest[b])
    {
      assert Before(side, orders[if a < i then a else a + 1], orders[if b < i then b else b + 1]);
    }
  }

  lemma OtherTicksStay(orders: seq<Resting>, i: nat, t: int)
    requires i < |orders| && t != orders[i].tick
    ensures HasTick(orders[..i] + orders[i + 1..], t) <==> HasTick(orders, t)
  {
    var rest := orders[..i] + orders[i + 1..];
    if k :| 0 <= k < |orders| && orders[k].tick == t {
      assert rest[if k < i then k else k - 1].tick == t;
    }
    if k :| 0 <= k < |rest| && rest[k].tick == t {
      assert orders[if k < i then k else k + 1].tick == t;
    }
  }

  lemma {:induction false} SumAtConcat(a: seq<Resting>, b: seq<Resting>, tick: int)
    ensures SumAt(a + b, tick) == SumAt(a, tick) + SumAt(b, tick)
  {
    if a == [] {
      assert a + b == b;
    } else {
      assert (a + b)[1..] == a[1..] + b;
      SumAtConcat(a[1..], b, tick);
    }
  }

  lemma SumAtOne(o: Resting, tick: int)
    ensures SumAt([o], tick) == if o.tick == tick then o.quantity else 0
  {
    assert [o][1..] == [];
  }

  /** The sum at a tick splits around any one order. */
  lemma SumAtSplit(orders: seq<Resting>, i: nat, tick: int)
    requires i < |orders|
    ensures SumAt(orders, tick) ==
            SumAt(orders[..i], tick) + (if orders[i].tick == tick then orders[i].quantity else 0)
            + SumAt(orders[i + 1..], tick)
  {
    SumAtOne(orders[i], tick);
    hide SumAt;
    var before, after := orders[..i], orders[i + 1..];
    assert orders == before + [orders[i]] + after;
    SumAtConcat(before + [orders[i]], after, tick);
    SumAtConcat(before, [orders[i]], tick);
  }

  /** A level aggregate never comes near the 64-bit limit: fewer than 2^20 orders of
      less than 2^32 each stay below 2^52. */
  lemma {:induction false} SumAtBound(orders: seq<Resting>, tick: int)
    requires forall i :: 0 <= i < |orders| ==> orders[i].quantity < QUANTITY_MODULUS
    ensures SumAt(orders, tick) <= |orders| * (QUANTITY_MODULUS - 1)
  {
    if orders == [] {
    } else {
      SumAtBound(orders[1..], tick);
    }
  }
}
