/** Matching follows price-time priority, and every request keeps the book invariant. */
module BookFacts {
  import opened Types
  import opened PriceBands
  import opened HalfBooks
  import opened Books
  import MemPools

  /** Quantity of the first `n` orders together. */
  function Depth(orders: seq<Resting>, n: nat): nat
    requires n <= |orders|
  {
    if n == 0 then 0 else Depth(orders, n - 1) + orders[n - 1].quantity
  }

  lemma {:induction false} DepthShift(orders: seq<Resting>, n: nat)
    requires n < |orders|
    ensures Depth(orders, n + 1) == orders[0].quantity + Depth(orders[1..], n)
  {
    if n == 0 {
    } else {
      DepthShift(orders, n - 1);
    }
  }

  lemma {:induction false} DepthMonotone(orders: seq<Resting>, a: nat, b: nat)
    requires a <= b <= |orders|
    ensures Depth(orders, a) <= Depth(orders, b)
  {
    if a >= b {
    } else {
      DepthMonotone(orders, a, b - 1);
    }
  }

  /** The book side that is left: the first `n` makers are gone, the next one is
      reduced by `partial`, the others are untouched. */
  function Remaining(orders: seq<Resting>, n: nat, partial: nat): seq<Resting>
    requires n <= |orders| && (partial > 0 ==> n < |orders| && partial <= orders[n].quantity)
  {
    if partial == 0 then orders[n..]
    else [orders[n].(quantity := orders[n].quantity - partial)] + orders[n + 1..]
  }

  /** Price-time priority: the makers that trade are the first `n`, entirely, and then
      `partial` of the next; they trade at their own price; trading stops only when the
      taker is exhausted or the next maker does not cross. */
  ghost predicate PriceTime(t: Taker, orders: seq<Resting>, left: nat, rest: seq<Resting>, n: nat, partial: nat) {
    && n <= |orders|
    && Depth(orders, n) + partial + left == t.quantity
    && (forall i :: 0 <= i < n ==> Crosses(t.side, t.limitTick, orders[i].tick))
    && (partial > 0 ==> n < |orders| && partial < orders[n].quantity && left == 0
                        && Crosses(t.side, t.limitTick, orders[n].tick))
    && (left > 0 ==> n == |orders| || !Crosses(t.side, t.limitTick, orders[n].tick))
    && rest == Remaining(orders, n, partial)
  }

  /** Who an incoming order belongs to, and the id it has been given. */
  datatype Trader = Trader(clientId: nat, clientOrderId: nat, marketOrderId: nat, side: Direction)

  function TraderOf(t: Taker): Trader {
    Trader(t.clientId, t.clientOrderId, t.marketOrderId, t.side)
  }

  /** The four messages of a fill of `x` between `t`, who has `left` after it, and the resting order `o`:
      one report to either, the trade, and what became of `o`. All carry the price of `o`. */
  ghost predicate FillTold(cfg: Config, t: Trader, o: Resting, x: nat, left: nat, rs: seq<Response>, us: seq<Update>)
    requires |rs| == |us| == 2 && x <= o.quantity
  {
    var side, price := Opposite(t.side), cfg.band.ToPrice(o.tick);
    && rs[0] == Response(FILLED, t.clientId, cfg.symbol, t.clientOrderId, t.marketOrderId, t.side, price, x, left)
    && rs[1] == Response(FILLED, o.clientId, cfg.symbol, o.clientOrderId, o.marketOrderId, side, price, x,
                         o.quantity - x)
    && us[0] == Update(TRADE, cfg.symbol, o.marketOrderId, side, price, x, 0)
    && us[1] == if x == o.quantity then Update(UpdateType.CANCEL, cfg.symbol, o.marketOrderId, side, price, 0, 0)
                else Update(MODIFY, cfg.symbol, o.marketOrderId, side, price, o.quantity - x, o.priority)
  }

  /** The fills are told one after the other: `n` makers filled entirely, then `partial` of the next. */
  ghost predicate FillsTold(cfg: Config, t: Trader, quantity: nat, orders: seq<Resting>, n: nat, partial: nat,
                            rs: seq<Response>, us: seq<Update>)
    requires n <= |orders| && (partial > 0 ==> n < |orders| && partial <= orders[n].quantity)
  {
    && |rs| == |us| == 2 * n + (if partial > 0 then 2 else 0)
    && (forall i :: 0 <= i < n ==> FullFill(cfg, t, quantity, orders, rs, us, i))
    && (partial > 0 ==>
          && quantity == Depth(orders, n) + partial
          && FillTold(cfg, t, orders[n], partial, 0, rs[2 * n..], us[2 * n..]))
  }

  ghost predicate FullFill(cfg: Config, t: Trader, quantity: nat, orders: seq<Resting>, rs: seq<Response>,
                           us: seq<Update>, i: nat)
    requires i < |orders| && 2 * i + 1 < |rs| && 2 * i + 1 < |us|
  {
    && quantity >= Depth(orders, i + 1)
    && FillTold(cfg, t, orders[i], orders[i].quantity, quantity - Depth(orders, i + 1),
                rs[2 * i..2 * i + 2], us[2 * i..2 * i + 2])
  }

  /** The keys of the makers that are gone leave the index; nothing else changes. */
  ghost predicate IndexWithout(index': map<Key, nat>, index: map<Key, nat>, orders: seq<Resting>, n: nat)
    requires n <= |orders|
  {
    && (forall key :: key in index' <==> key in index && forall i :: 0 <= i < n ==> KeyOf(orders[i]) != key)
    && (forall key :: key in index' ==> index'[key] == index[key])
  }

  lemma {:induction false} MatchIsPriceTime(cfg: Config, t: Taker, h: Half, index: map<Key, nat>)
    returns (n: nat, partial: nat)
    requires TicksOk(h) && Positive(h.orders)
    ensures var m := Match(cfg, t, h, index);
            && PriceTime(t, h.orders, m.left, m.half.orders, n, partial)
            && FillsTold(cfg, TraderOf(t), t.quantity, h.orders, n, partial, m.responses, m.updates)
            && IndexWithout(m.index, index, h.orders, n)
    decreases t.quantity + |h.orders|
  {
    hide PriceTime, FillsTold, IndexWithout, Match, FillFirst;
    if !CanTrade(t, h) || t.quantity < h.orders[0].quantity {
      n, partial := 0, if CanTrade(t, h) then t.quantity else 0;
      MatchStops(cfg, t, h, index);
    } else {
      FillsAll(cfg, t, h, index);
      var first := FillFirst(cfg, t, h, index);
      var t' := t.(quantity := first.left);
      var k;
      k, partial := MatchIsPriceTime(cfg, t', first.half, first.index);
      n := k + 1;
      var rest := Match(cfg, t', first.half, first.index);
      MatchUnfold(cfg, t, h, index);
      PriceTimeStep(t, h.orders, rest.left, rest.half.orders, k, partial);
      FillsStep(cfg, t, h.orders, first, rest, Match(cfg, t, h, index), k, partial);
      IndexStep(rest.index, first.index, index, h.orders, k);
    }
  }

  /** The taker is exhausted by the first maker, or does not trade at all. */
  lemma MatchStops(cfg: Config, t: Taker, h: Half, index: map<Key, nat>)
    requires TicksOk(h) && Positive(h.orders)
    requires CanTrade(t, h) ==> t.quantity < h.orders[0].quantity
    ensures var m, partial := Match(cfg, t, h, index), if CanTrade(t, h) then t.quantity else 0;
            && PriceTime(t, h.orders, m.left, m.half.orders, 0, partial)
            && FillsTold(cfg, TraderOf(t), t.quantity, h.orders, 0, partial, m.responses, m.updates)
            && IndexWithout(m.index, index, h.orders, 0)
  {
    if CanTrade(t, h) {
      FillsPart(cfg, t, h, index);
      hide Match;
      assert Depth(h.orders, 0) == 0;
      assert Remaining(h.orders, 0, t.quantity) == FillAt(h, 0, t.quantity).orders;
      var m := Match(cfg, t, h, index);
      assert m.responses[0..] == m.responses && m.updates[0..] == m.updates;
    } else {
      assert Match(cfg, t, h, index) == Matched(t.quantity, h, index, [], []);
      hide Match;
      assert Depth(h.orders, 0) == 0;
      assert Remaining(h.orders, 0, 0) == h.orders;
    }
  }

  /** A first maker larger than the taker ends the matching. */
  lemma FillsPart(cfg: Config, t: Taker, h: Half, index: map<Key, nat>)
    requires TicksOk(h) && CanTrade(t, h) && t.quantity < h.orders[0].quantity
    ensures var m, x := Match(cfg, t, h, index), t.quantity;
            && m == Matched(0, FillAt(h, 0, x), index, m.responses, m.updates)
            && |m.responses| == |m.updates| == 2
            && FillTold(cfg, TraderOf(t), h.orders[0], x, 0, m.responses, m.updates)
  {
    MatchUnfold(cfg, t, h, index);
    var first := FillFirst(cfg, t, h, index);
    assert Match(cfg, t.(quantity := 0), first.half, index) == Matched(0, first.half, index, [], []);
    hide Match;
    assert first.responses + [] == first.responses && first.updates + [] == first.updates;
  }

  /** What filling the first maker entirely leaves behind. */
  lemma FillsAll(cfg: Config, t: Taker, h: Half, index: map<Key, nat>)
    requires TicksOk(h) && Positive(h.orders) && CanTrade(t, h) && t.quantity >= h.orders[0].quantity
    ensures var first, x := FillFirst(cfg, t, h, index), h.orders[0].quantity;
            && first.half.orders == h.orders[1..] && first.left == t.quantity - x
            && TicksOk(first.half) && Positive(first.half.orders)
            && first.index == index - {KeyOf(h.orders[0])}
            && |first.responses| == |first.updates| == 2
            && FillTold(cfg, TraderOf(t), h.orders[0], x, t.quantity - x, first.responses, first.updates)
  {
    assert FillFirst(cfg, t, h, index).half.orders == h.orders[1..];
  }

  /** One fill in full: what is left, what is said and which makers remain. */
  lemma FillShape(cfg: Config, t: Taker, h: Half, index: map<Key, nat>)
    requires TicksOk(h) && h.orders != []
    ensures var m, side, o := FillFirst(cfg, t, h, index), Opposite(t.side), h.orders[0];
            var x := Min(t.quantity, o.quantity);
            && m.left == t.quantity - x
            && m.responses == [TakerFilled(cfg, t, o.tick, x, m.left), MakerFilled(cfg, side, o, x)]
            && m.updates == [Traded(cfg, side, o, x),
                             if x == o.quantity then Gone(cfg, side, o) else Reduced(cfg, side, o, x)]
            && m.half.orders == if x == o.quantity then h.orders[1..] else h.orders[0 := o.(quantity := o.quantity - x)]
  {
  }

  lemma FillKeepsPositive(cfg: Config, t: Taker, h: Half, index: map<Key, nat>)
    requires CanTrade(t, h) && TicksOk(h) && Positive(h.orders)
    ensures Positive(FillFirst(cfg, t, h, index).half.orders)
  {
  }

  lemma MatchUnfold(cfg: Config, t: Taker, h: Half, index: map<Key, nat>)
    requires TicksOk(h) && CanTrade(t, h)
    ensures var first, m := FillFirst(cfg, t, h, index), Match(cfg, t, h, index);
            && TicksOk(first.half) && first.left + |first.half.orders| < t.quantity + |h.orders|
            && var rest := Match(cfg, t.(quantity := first.left), first.half, first.index);
               m == rest.(responses := first.responses + rest.responses, updates := first.updates + rest.updates)
  {
  }

  lemma PriceTimeStep(t: Taker, orders: seq<Resting>, left: nat, rest: seq<Resting>, k: nat, partial: nat)
    requires orders != [] && t.quantity >= orders[0].quantity && Crosses(t.side, t.limitTick, orders[0].tick)
    requires PriceTime(t.(quantity := t.quantity - orders[0].quantity), orders[1..], left, rest, k, partial)
    ensures PriceTime(t, orders, left, rest, k + 1, partial)
  {
    DepthShift(orders, k);
    assert forall i :: 0 <= i < k ==> orders[1..][i] == orders[i + 1];
    assert forall i :: 0 < i < k + 1 ==> orders[i] == orders[1..][i - 1];
    assert orders[1..][k..] == orders[k + 1..];
    assert k < |orders[1..]| ==> orders[1..][k + 1..] == orders[k + 2..];
  }

  /** What was at position `i` is two positions later once two elements come before it. */
  lemma TwoLater<T>(first: seq<T>, rest: seq<T>, i: nat)
    requires |first| == 2
    ensures i + 2 <= |rest| ==> (first + rest)[i + 2..i + 4] == rest[i..i + 2]
    ensures i <= |rest| ==> (first + rest)[i + 2..] == rest[i..]
    ensures (first + rest)[0..2] == first
  {
  }

  lemma FillsStep(cfg: Config, t: Taker, orders: seq<Resting>, first: Matched, rest: Matched, m: Matched,
                  k: nat, partial: nat)
    requires orders != [] && t.quantity >= orders[0].quantity
    requires k < |orders| && (partial > 0 ==> k + 1 < |orders| && partial <= orders[k + 1].quantity)
    requires |first.responses| == |first.updates| == 2
    requires FillTold(cfg, TraderOf(t), orders[0], orders[0].quantity, t.quantity - orders[0].quantity,
                      first.responses, first.updates)
    requires FillsTold(cfg, TraderOf(t), t.quantity - orders[0].quantity, orders[1..], k, partial, rest.responses,
                       rest.updates)
    requires m.responses == first.responses + rest.responses && m.updates == first.updates + rest.updates
    ensures FillsTold(cfg, TraderOf(t), t.quantity, orders, k + 1, partial, m.responses, m.updates)
  {
    hide FillTold, FullFill, Depth;
    var extra := if partial > 0 then 2 else 0;
    assert |m.responses| == |m.updates| == 2 * (k + 1) + extra;
    forall i | 0 <= i < k + 1
      ensures FullFill(cfg, TraderOf(t), t.quantity, orders, m.responses, m.updates, i)
    {
      if i > 0 {
        assert FullFill(cfg, TraderOf(t), t.quantity - orders[0].quantity, orders[1..], rest.responses, rest.updates,
                        i - 1);
      }
      FullFillStep(cfg, TraderOf(t), t.quantity, orders, first.responses, first.updates, rest.responses, rest.updates,
                   i);
    }
    if partial > 0 {
      DepthShift(orders, k);
      TwoLater(first.responses, rest.responses, 2 * k);
      TwoLater(first.updates, rest.updates, 2 * k);
      assert orders[1..][k] == orders[k + 1] && 2 * (k + 1) == 2 * k + 2;
    }
  }

  lemma FullFillStep(cfg: Config, t: Trader, quantity: nat, orders: seq<Resting>, rs0: seq<Response>, us0: seq<Update>,
                     rs: seq<Response>, us: seq<Update>, i: nat)
    requires i < |orders| && quantity >= orders[0].quantity && |rs0| == |us0| == 2
    requires FillTold(cfg, t, orders[0], orders[0].quantity, quantity - orders[0].quantity, rs0, us0)
    requires i > 0 ==> 2 * i - 1 < |rs| && 2 * i - 1 < |us|
                       && FullFill(cfg, t, quantity - orders[0].quantity, orders[1..], rs, us, i - 1)
    ensures FullFill(cfg, t, quantity, orders, rs0 + rs, us0 + us, i)
  {
    hide FillTold;
    DepthShift(orders, i);
    if i == 0 {
      TwoLater(rs0, rs, 0);
      TwoLater(us0, us, 0);
    } else {
      TwoLater(rs0, rs, 2 * i - 2);
      TwoLater(us0, us, 2 * i - 2);
      assert orders[1..][i - 1] == orders[i];
    }
  }

  lemma IndexStep(index': map<Key, nat>, first: map<Key, nat>, index: map<Key, nat>, orders: seq<Resting>, k: nat)
    requires k < |orders| && first == index - {KeyOf(orders[0])}
    requires IndexWithout(index', first, orders[1..], k)
    ensures IndexWithout(index', index, orders, k + 1)
  {
    forall key
      ensures key in index' <==> key in index && forall i :: 0 <= i < k + 1 ==> KeyOf(orders[i]) != key
    {
      if key in index' {
        forall i | 0 <= i < k + 1
          ensures KeyOf(orders[i]) != key
        {
          assert i > 0 ==> KeyOf(orders[1..][i - 1]) != key;
        }
      }
    }
  }

  /** Price-time priority leaves no choice: it fixes how far the taker gets. */
  lemma PriceTimeIsUnique(t: Taker, orders: seq<Resting>, left1: nat, rest1: seq<Resting>, n1: nat, partial1: nat,
                          left2: nat, rest2: seq<Resting>, n2: nat, partial2: nat)
    requires Positive(orders)
    requires PriceTime(t, orders, left1, rest1, n1, partial1) && PriceTime(t, orders, left2, rest2, n2, partial2)
    ensures left1 == left2 && rest1 == rest2 && n1 == n2 && partial1 == partial2
  {
    if n1 < n2 {
      DepthMonotone(orders, n1 + 1, n2);
    } else if n2 < n1 {
      DepthMonotone(orders, n2 + 1, n1);
    }
  }

  // ----- the invariant -----

  lemma {:induction false} MatchWellFormed(cfg: Config, t: Taker, h: Half, index: map<Key, nat>)
    requires WellFormed(Opposite(t.side), h) && TicksOk(h)
    ensures WellFormed(Opposite(t.side), Match(cfg, t, h, index).half)
    decreases t.quantity + |h.orders|
  {
    if !CanTrade(t, h) {
    } else {
      var first := FillFirst(cfg, t, h, index);
      var x := Min(t.quantity, h.orders[0].quantity);
      FillWellFormed(Opposite(t.side), h, 0, x);
      if x == h.orders[0].quantity {
        RemoveWellFormed(Opposite(t.side), FillAt(h, 0, x), 0);
      }
      InvariantGivesTicks(Opposite(t.side), first.half);
      MatchWellFormed(cfg, t.(quantity := first.left), first.half, first.index);
    }
  }

  /** Order `i` of what remains is order `n + i` of what was there, up to its quantity. */
  lemma RemainingAt(orders: seq<Resting>, n: nat, partial: nat)
    requires n <= |orders| && (partial > 0 ==> n < |orders| && partial < orders[n].quantity)
    ensures |Remaining(orders, n, partial)| == |orders| - n
    ensures forall i :: 0 <= i < |orders| - n ==>
              var o := Remaining(orders, n, partial)[i];
              && o == orders[n + i].(quantity := o.quantity)
              && (orders[n + i].quantity > 0 ==> 0 < o.quantity <= orders[n + i].quantity)
  {
  }

  lemma RemainingSideOk(side: Direction, h: Half, h': Half, nextId: nat, n: nat, partial: nat)
    requires SideOk(side, h, nextId) && WellFormed(side, h')
    requires n <= |h.orders| && (partial > 0 ==> n < |h.orders| && partial < h.orders[n].quantity)
    requires h'.orders == Remaining(h.orders, n, partial)
    ensures SideOk(side, h', nextId)
  {
    RemainingAt(h.orders, n, partial);
    assert forall i :: 0 <= i < |h'.orders| ==>
      h'.orders[i] == h.orders[n + i].(quantity := h'.orders[i].quantity)
          && 0 < h'.orders[i].quantity < QUANTITY_MODULUS;
  }

  /** Nothing that remains on the other side crosses a taker with quantity left. */
  lemma NothingCrosses(cfg: Config, t: Taker, h: Half, index: map<Key, nat>)
    requires WellFormed(Opposite(t.side), h) && Positive(h.orders) && TicksOk(h)
    ensures var m := Match(cfg, t, h, index);
            && m.left <= t.quantity
            && (m.left > 0 ==> forall i :: 0 <= i < |m.half.orders| ==>
                !Crosses(t.side, t.limitTick, m.half.orders[i].tick))
  {
    var n, partial := MatchIsPriceTime(cfg, t, h, index);
    MatchWellFormed(cfg, t, h, index);
    var m := Match(cfg, t, h, index);
    if m.left > 0 {
      forall i | 0 <= i < |m.half.orders|
        ensures !Crosses(t.side, t.limitTick, m.half.orders[i].tick)
      {
        assert i > 0 ==> Before(Opposite(t.side), m.half.orders[0], m.half.orders[i]);
      }
    }
  }

  lemma InsertSideOk(side: Direction, h: Half, tick: int, clientId: nat, clientOrderId: nat, id: nat, quantity: nat)
    requires SideOk(side, h, id) && 0 <= tick < TICK_COUNT && 0 < quantity < QUANTITY_MODULUS && id >= 1
    ensures SideOk(side, Insert(side, h, tick, clientId, clientOrderId, id, quantity), id + 1)
  {
    hide WellFormed, InsertPos, IdsOk;
    InsertWellFormed(side, h, tick, clientId, clientOrderId, id, quantity);
    InvariantGivesTicks(side, h);
    var p := InsertPos(side, h.orders, tick);
    var x := Resting(clientId, clientOrderId, id, tick, quantity, h.nextPriority[tick]);
    var orders := h.orders[..p] + [x] + h.orders[p..];
    assert forall i :: 0 <= i < |orders| && i != p ==> orders[i] == h.orders[if i < p then i else i - 1];
    NothingBehind(side, h, tick);
    InsertIds(h.orders, p, x, orders, id);
  }

  lemma NothingBehind(side: Direction, h: Half, tick: int)
    requires WellFormed(side, h)
    ensures forall i :: InsertPos(side, h.orders, tick) <= i < |h.orders| ==> h.orders[i].tick != tick
  {
    InsertPosSplits(side, h.orders, tick);
  }

  lemma InsertIds(orders: seq<Resting>, p: nat, x: Resting, orders': seq<Resting>, id: nat)
    requires IdsOk(orders, id) && p <= |orders| && x.marketOrderId == id >= 1
    requires forall i :: p <= i < |orders| ==> orders[i].tick != x.tick
    requires |orders'| == |orders| + 1 && orders'[p] == x
    requires forall i :: 0 <= i < |orders'| && i != p ==> orders'[i] == orders[if i < p then i else i - 1]
    ensures IdsOk(orders', id + 1)
  {
    forall i, j | 0 <= i < j < |orders'|
      ensures orders'[i].marketOrderId != orders'[j].marketOrderId
      ensures orders'[i].tick == orders'[j].tick ==> orders'[i].marketOrderId < orders'[j].marketOrderId
    {
      if i != p {
        var i0 := if i < p then i else i - 1;
        assert 1 <= orders[i0].marketOrderId < id;
        if j != p {
          var j0 := if j < p then j else j - 1;
          assert i0 < j0;
        }
      } else {
        assert orders'[j] == orders[j - 1];
      }
    }
  }

  /** Listing survives the arrival of another order. */
  lemma InsertListed(side: Direction, h: Half, tick: int, clientId: nat, clientOrderId: nat, id: nat, quantity: nat)
    requires |h.nextPriority| == TICK_COUNT && 0 <= tick < TICK_COUNT
    ensures var h' := Insert(side, h, tick, clientId, clientOrderId, id, quantity);
            && Listed(h'.orders, (clientId, clientOrderId), id)
            && forall key, k :: Listed(h.orders, key, k) ==> Listed(h'.orders, key, k)
  {
    var p := InsertPos(side, h.orders, tick);
    var h' := Insert(side, h, tick, clientId, clientOrderId, id, quantity);
    assert h'.orders[p].marketOrderId == id && KeyOf(h'.orders[p]) == (clientId, clientOrderId);
    forall key, k | Listed(h.orders, key, k)
      ensures Listed(h'.orders, key, k)
    {
      var i :| 0 <= i < |h.orders| && KeyOf(h.orders[i]) == key && h.orders[i].marketOrderId == k;
      assert h'.orders[if i < p then i else i + 1] == h.orders[i];
    }
  }

  /** An order whose key is not that of a departed maker is still listed. */
  lemma RemainingListed(orders: seq<Resting>, n: nat, partial: nat, key: Key, id: nat)
    requires n <= |orders| && (partial > 0 ==> n < |orders| && partial < orders[n].quantity)
    requires Listed(orders, key, id) && forall i :: 0 <= i < n ==> KeyOf(orders[i]) != key
    ensures Listed(Remaining(orders, n, partial), key, id)
  {
    var i :| 0 <= i < |orders| && KeyOf(orders[i]) == key && orders[i].marketOrderId == id;
    RemainingAt(orders, n, partial);
    var o := Remaining(orders, n, partial)[i - n];
    assert o == orders[n + (i - n)].(quantity := o.quantity);
  }

  /** Orders of a side, changed at most in quantity and dropped, stay apart from the other side. */
  ghost predicate Subset(orders': seq<Resting>, orders: seq<Resting>) {
    forall i :: 0 <= i < |orders'| ==> SameOrder(orders'[i], orders)
  }

  ghost predicate SameOrder(o: Resting, orders: seq<Resting>) {
    exists k :: 0 <= k < |orders| && orders[k].tick == o.tick && orders[k].marketOrderId == o.marketOrderId
  }

  lemma SubsetApart(bids': seq<Resting>, asks': seq<Resting>, bids: seq<Resting>, asks: seq<Resting>)
    requires Apart(bids, asks) && Subset(bids', bids) && Subset(asks', asks)
    ensures Apart(bids', asks')
  {
    forall i, j | 0 <= i < |bids'| && 0 <= j < |asks'|
      ensures bids'[i].tick < asks'[j].tick && bids'[i].marketOrderId != asks'[j].marketOrderId
    {
      assert SameOrder(bids'[i], bids) && SameOrder(asks'[j], asks);
    }
  }

  lemma SubsetOfSelf(orders: seq<Resting>)
    ensures Subset(orders, orders)
  {
    forall i | 0 <= i < |orders|
      ensures SameOrder(orders[i], orders)
    {
    }
  }

  lemma RemainingSubset(orders: seq<Resting>, n: nat, partial: nat)
    requires n <= |orders| && (partial > 0 ==> n < |orders| && partial < orders[n].quantity)
    ensures Subset(Remaining(orders, n, partial), orders)
  {
    RemainingAt(orders, n, partial);
    forall i | 0 <= i < |orders| - n
      ensures SameOrder(Remaining(orders, n, partial)[i], orders)
    {
      assert orders[n + i].tick == Remaining(orders, n, partial)[i].tick;
    }
  }

  lemma RemovedSubset(orders: seq<Resting>, i: nat)
    requires i < |orders|
    ensures Subset(orders[..i] + orders[i + 1..], orders)
  {
    var rest := orders[..i] + orders[i + 1..];
    forall k | 0 <= k < |rest|
      ensures SameOrder(rest[k], orders)
    {
      assert rest[k] == orders[if k < i then k else k + 1];
    }
  }

  /** The book between matching and resting the remainder. */
  lemma MatchKeeps(cfg: Config, b: Book, t: Taker)
    requires Invariant(b) && BookTicksOk(b)
    ensures var m := Match(cfg, t, HalfOf(b, Opposite(t.side)), b.index);
            Invariant(WithHalf(b, Opposite(t.side), m.half).(index := m.index))
  {
    hide Match, WellFormed, IdsOk, FillsTold, Subset, Apart, Remaining;
    var side := Opposite(t.side);
    var h, other := HalfOf(b, side), HalfOf(b, t.side);
    var m := Match(cfg, t, h, b.index);
    var n, partial := MatchIsPriceTime(cfg, t, h, b.index);
    MatchWellFormed(cfg, t, h, b.index);
    RemainingSideOk(side, h, m.half, b.nextId, n, partial);
    RemainingSubset(h.orders, n, partial);
    SubsetOfSelf(other.orders);
    if side == BUY {
      SubsetApart(m.half.orders, other.orders, h.orders, other.orders);
    } else {
      SubsetApart(other.orders, m.half.orders, other.orders, h.orders);
    }
    var b' := WithHalf(b, side, m.half).(index := m.index);
    forall key | key in m.index
      ensures Listed(b'.bids.orders, key, m.index[key]) || Listed(b'.asks.orders, key, m.index[key])
    {
      if Listed(h.orders, key, b.index[key]) {
        RemainingListed(h.orders, n, partial, key, b.index[key]);
      }
    }
  }

  lemma InsertApart(side: Direction, h: Half, other: seq<Resting>, tick: int, clientId: nat, clientOrderId: nat,
                    id: nat, quantity: nat)
    requires |h.nextPriority| == TICK_COUNT && 0 <= tick < TICK_COUNT
    requires if side == BUY then Apart(h.orders, other) else Apart(other, h.orders)
    requires forall i :: 0 <= i < |other| ==> !Crosses(side, tick, other[i].tick) && other[i].marketOrderId < id
    ensures var orders := Insert(side, h, tick, clientId, clientOrderId, id, quantity).orders;
            if side == BUY then Apart(orders, other) else Apart(other, orders)
  {
    var p := InsertPos(side, h.orders, tick);
    var orders := Insert(side, h, tick, clientId, clientOrderId, id, quantity).orders;
    assert forall i :: 0 <= i < |orders| && i != p ==> orders[i] == h.orders[if i < p then i else i - 1];
  }

  lemma RestKeeps(b: Book, side: Direction, tick: int, clientId: nat, clientOrderId: nat, quantity: nat)
    requires Invariant(b) && 0 <= tick < TICK_COUNT && 0 < quantity < QUANTITY_MODULUS
    requires forall i :: 0 <= i < |HalfOf(b, Opposite(side)).orders| ==>
               !Crosses(side, tick, HalfOf(b, Opposite(side)).orders[i].tick)
    requires |HalfOf(b, side).nextPriority| == TICK_COUNT
    ensures var h := Insert(side, HalfOf(b, side), tick, clientId, clientOrderId, b.nextId, quantity);
            Invariant(WithHalf(b, side, h).(index := b.index[(clientId, clientOrderId) := b.nextId],
                                            nextId := b.nextId + 1))
  {
    hide WellFormed, Apart, Listed, Insert, Positive, InsertPos;
    var own, other := HalfOf(b, side), HalfOf(b, Opposite(side));
    var h := Insert(side, own, tick, clientId, clientOrderId, b.nextId, quantity);
    InsertSideOk(side, own, tick, clientId, clientOrderId, b.nextId, quantity);
    InsertListed(side, own, tick, clientId, clientOrderId, b.nextId, quantity);
    CounterGrows(b);
    InsertApart(side, own, other.orders, tick, clientId, clientOrderId, b.nextId, quantity);
    RestIndex(b, side, h, (clientId, clientOrderId));
  }

  lemma RestIndex(b: Book, side: Direction, h: Half, key0: Key)
    requires IndexSound(b) && Listed(h.orders, key0, b.nextId)
    requires forall key, id :: Listed(HalfOf(b, side).orders, key, id) ==> Listed(h.orders, key, id)
    ensures IndexSound(WithHalf(b, side, h).(index := b.index[key0 := b.nextId], nextId := b.nextId + 1))
  {
    hide Listed;
  }

  lemma AddKeeps(cfg: Config, b: Book, r: Request)
    requires Invariant(b) && BookTicksOk(b) && r.New? && cfg.band.IsValid() && Acceptable(cfg, r)
    ensures Invariant(Add(cfg, b, r).book)
  {
    hide Match, WellFormed, Invariant, Insert;
    PriceOfTick(cfg.band, r.price);
    var tick := cfg.band.ToTick(r.price);
    var t := Taker(r.clientId, r.clientOrderId, b.nextId, r.side, tick, r.quantity);
    var h := HalfOf(b, Opposite(r.side));
    var m := Match(cfg, t, h, b.index);
    MatchKeeps(cfg, b, t);
    var b' := WithHalf(b, Opposite(r.side), m.half).(index := m.index);
    if m.left > 0 {
      InvariantGivesSides(b);
      NothingCrosses(cfg, t, h, b.index);
      RestKeeps(b', r.side, tick, r.clientId, r.clientOrderId, m.left);
    } else {
      CounterGrows(b');
    }
  }

  lemma InvariantGivesSides(b: Book)
    requires Invariant(b)
    ensures WellFormed(BUY, b.bids) && Positive(b.bids.orders) && WellFormed(SELL, b.asks) && Positive(b.asks.orders)
  {
  }

  lemma InvariantGivesBookTicks(b: Book)
    requires Invariant(b)
    ensures BookTicksOk(b)
  {
    InvariantGivesTicks(BUY, b.bids);
    InvariantGivesTicks(SELL, b.asks);
  }

  lemma CounterGrows(b: Book)
    requires Invariant(b)
    ensures Invariant(b.(nextId := b.nextId + 1))
  {
  }

  lemma RemoveSideOk(side: Direction, h: Half, i: nat, nextId: nat)
    requires SideOk(side, h, nextId) && i < |h.orders|
    requires |h.nextPriority| == TICK_COUNT && 0 <= h.orders[i].tick < TICK_COUNT
    ensures SideOk(side, RemoveAt(h, i), nextId)
  {
    hide WellFormed, HasTick;
    RemoveWellFormed(side, h, i);
    var h' := RemoveAt(h, i);
    assert forall k :: 0 <= k < |h'.orders| ==> h'.orders[k] == h.orders[if k < i then k else k + 1];
  }

  /** Only an order with the removed key can lose its listing. */
  lemma RemovedListed(h: Half, i: nat, key: Key, id: nat)
    requires i < |h.orders| && |h.nextPriority| == TICK_COUNT && 0 <= h.orders[i].tick < TICK_COUNT
    requires Listed(h.orders, key, id) && key != KeyOf(h.orders[i])
    ensures Listed(RemoveAt(h, i).orders, key, id)
  {
    var h' := RemoveAt(h, i);
    var k :| 0 <= k < |h.orders| && KeyOf(h.orders[k]) == key && h.orders[k].marketOrderId == id;
    assert h'.orders[if k < i then k else k - 1] == h.orders[k];
  }

  lemma RemoveKeeps(cfg: Config, b: Book, side: Direction, i: nat)
    requires Invariant(b) && BookTicksOk(b) && i < |HalfOf(b, side).orders|
    ensures Invariant(RemoveFrom(cfg, b, side, i).book)
  {
    hide WellFormed, Apart, Subset, HasTick, IdsOk, Listed, Positive;
    var h, other := HalfOf(b, side), HalfOf(b, Opposite(side));
    var h' := RemoveAt(h, i);
    RemoveSideOk(side, h, i, b.nextId);
    RemovedSubset(h.orders, i);
    SubsetOfSelf(other.orders);
    if side == BUY {
      SubsetApart(h'.orders, other.orders, h.orders, other.orders);
    } else {
      SubsetApart(other.orders, h'.orders, other.orders, h.orders);
    }
    var b' := RemoveFrom(cfg, b, side, i).book;
    forall key | key in b'.index
      ensures Listed(b'.bids.orders, key, b'.index[key]) || Listed(b'.asks.orders, key, b'.index[key])
    {
      if Listed(h.orders, key, b.index[key]) {
        RemovedListed(h, i, key, b.index[key]);
      }
    }
  }

  /** Every request keeps the invariant: sorted sides, positive quantities, increasing
      ids, no crossed prices, no dangling index entry. */
  lemma StepKeeps(cfg: Config, b: Book, r: Request)
    requires cfg.band.IsValid() && Acceptable(cfg, r) && Invariant(b)
    ensures BookTicksOk(b)
    ensures Invariant(Step(cfg, b, r).book)
  {
    InvariantGivesTicks(BUY, b.bids);
    InvariantGivesTicks(SELL, b.asks);
    match r
    case New(_, _, _, _, _) =>
      AddKeeps(cfg, b, r);
    case Cancel(clientId, clientOrderId) =>
      if (clientId, clientOrderId) in b.index {
        var id := b.index[(clientId, clientOrderId)];
        if Position(b.bids.orders, id) < |b.bids.orders| {
          RemoveKeeps(cfg, b, BUY, Position(b.bids.orders, id));
        } else if Position(b.asks.orders, id) < |b.asks.orders| {
          RemoveKeeps(cfg, b, SELL, Position(b.asks.orders, id));
        }
      }
  }

  lemma EmptyInvariant()
    ensures Invariant(EmptyBook())
  {
  }

  /** A new order leaves at most one order more on the book. */
  lemma AddCounts(cfg: Config, b: Book, r: Request)
    requires r.New? && cfg.band.IsValid() && Acceptable(cfg, r) && Invariant(b) && BookTicksOk(b)
    ensures var b' := Add(cfg, b, r).book;
            |b'.bids.orders| + |b'.asks.orders| <= |b.bids.orders| + |b.asks.orders| + 1
  {
    hide Match, WellFormed, Positive, Apart, IndexSound, IdsOk, FillsTold, IndexWithout, Depth;
    PriceOfTick(cfg.band, r.price);
    var t := Taker(r.clientId, r.clientOrderId, b.nextId, r.side, cfg.band.ToTick(r.price), r.quantity);
    var h := HalfOf(b, Opposite(r.side));
    var n, partial := MatchIsPriceTime(cfg, t, h, b.index);
    RemainingAt(h.orders, n, partial);
  }
}
