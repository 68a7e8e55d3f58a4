/** When the (client, client order id) index finds every resting order of a client. What the
    other clients do with their ids does not matter. */
module BookIndexes {
  import opened Types
  import opened PriceBands
  import opened HalfBooks
  import opened Books
  import opened BookFacts

  /** The orders of client `c` among `orders` are found. */
  ghost predicate Found(index: map<Key, nat>, orders: seq<Resting>, c: nat) {
    forall i :: 0 <= i < |orders| && orders[i].clientId == c ==> FoundOrder(index, orders[i])
  }

  predicate FoundOrder(index: map<Key, nat>, o: Resting) {
    KeyOf(o) in index && index[KeyOf(o)] == o.marketOrderId
  }

  ghost predicate IndexComplete(b: Book, c: nat) {
    Found(b.index, b.bids.orders, c) && Found(b.index, b.asks.orders, c)
  }

  ghost predicate NotUsed(orders: seq<Resting>, key: Key) {
    forall i :: 0 <= i < |orders| ==> KeyOf(orders[i]) != key
  }

  ghost predicate KeyIsFree(b: Book, key: Key) {
    NotUsed(b.bids.orders, key) && NotUsed(b.asks.orders, key)
  }

  /** An index complete for a client makes the cancel of any of its orders remove exactly that order. */
  lemma CancelIsHonoured(cfg: Config, b: Book, side: Direction, i: nat)
    requires Invariant(b) && BookTicksOk(b) && i < |HalfOf(b, side).orders|
    requires IndexComplete(b, HalfOf(b, side).orders[i].clientId)
    ensures var o := HalfOf(b, side).orders[i];
            CancelOrder(cfg, b, o.clientId, o.clientOrderId) == RemoveFrom(cfg, b, side, i)
  {
    hide WellFormed, IndexSound, Positive, RemoveAt;
    var o := HalfOf(b, side).orders[i];
    assert FoundOrder(b.index, o);
    var p, q := Position(b.bids.orders, o.marketOrderId), Position(b.asks.orders, o.marketOrderId);
  }

  /** A cancel is rejected exactly when the index has no entry for it, and otherwise withdraws a
      resting order of that client and id. When the index is complete for the client, it is
      rejected exactly when no such order rests. */
  lemma CancelRejected(cfg: Config, b: Book, clientId: nat, clientOrderId: nat)
    requires Invariant(b) && BookTicksOk(b)
    ensures var key, done := (clientId, clientOrderId), CancelOrder(cfg, b, clientId, clientOrderId);
            && (key !in b.index <==> done == Outcome(b, [Rejected(cfg, clientId, clientOrderId)], []))
            && (key in b.index ==> Withdraws(cfg, b, key, done))
            && (IndexComplete(b, clientId) ==> (key !in b.index <==> KeyIsFree(b, key)))
  {
    hide WellFormed, Positive, RemoveAt, IdsOk, Apart, Listed, NotUsed, Found, Withdraws, RemoveFrom;
    var key := (clientId, clientOrderId);
    if key in b.index {
      IndexLeads(b, key);
      var id := b.index[key];
      var side := if Position(b.bids.orders, id) < |b.bids.orders| then BUY else SELL;
      IsWithdrawn(cfg, b, key, side, Position(HalfOf(b, side).orders, id));
    } else if IndexComplete(b, clientId) {
      KeyUnused(b.index, b.bids.orders, key);
      KeyUnused(b.index, b.asks.orders, key);
    }
  }

  lemma IsWithdrawn(cfg: Config, b: Book, key: Key, side: Direction, i: nat)
    requires BookTicksOk(b) && i < |HalfOf(b, side).orders| && KeyOf(HalfOf(b, side).orders[i]) == key
    ensures Withdraws(cfg, b, key, RemoveFrom(cfg, b, side, i))
    ensures RemoveFrom(cfg, b, side, i) != Outcome(b, [Rejected(cfg, key.0, key.1)], [])
  {
    assert RemoveFrom(cfg, b, side, i).responses[0].kind == CANCELED;
  }

  /** The entry of a key leads to an order with that key, so the key is in use. */
  lemma IndexLeads(b: Book, key: Key)
    requires Invariant(b) && key in b.index
    ensures var id := b.index[key];
            var side := if Position(b.bids.orders, id) < |b.bids.orders| then BUY else SELL;
            var i := Position(HalfOf(b, side).orders, id);
            i < |HalfOf(b, side).orders| && KeyOf(HalfOf(b, side).orders[i]) == key
    ensures !KeyIsFree(b, key)
  {
    hide WellFormed, Positive;
    var id := b.index[key];
    if Listed(b.bids.orders, key, id) {
      var k :| 0 <= k < |b.bids.orders| && KeyOf(b.bids.orders[k]) == key && b.bids.orders[k].marketOrderId == id;
      assert Position(b.bids.orders, id) == k;
    } else {
      var k :| 0 <= k < |b.asks.orders| && KeyOf(b.asks.orders[k]) == key && b.asks.orders[k].marketOrderId == id;
      assert Position(b.asks.orders, id) == k;
      assert Position(b.bids.orders, id) == |b.bids.orders|;
    }
  }

  lemma KeyUnused(index: map<Key, nat>, orders: seq<Resting>, key: Key)
    requires Found(index, orders, key.0) && key !in index
    ensures NotUsed(orders, key)
  {
    assert forall i :: 0 <= i < |orders| && orders[i].clientId == key.0 ==> FoundOrder(index, orders[i]);
  }

  /** The outcome of withdrawing some resting order with this key. */
  ghost predicate Withdraws(cfg: Config, b: Book, key: Key, done: Outcome)
    requires BookTicksOk(b)
  {
    exists side: Direction, i: nat ::
      i < |HalfOf(b, side).orders| && KeyOf(HalfOf(b, side).orders[i]) == key && done == RemoveFrom(cfg, b, side, i)
  }

  /** What matching leaves is still found: the keys that left the index left with their orders. */
  lemma MatchComplete(cfg: Config, b: Book, t: Taker, c: nat)
    requires Invariant(b) && BookTicksOk(b) && IndexComplete(b, c)
    ensures var m := Match(cfg, t, HalfOf(b, Opposite(t.side)), b.index);
            && Found(m.index, m.half.orders, c) && Found(m.index, HalfOf(b, t.side).orders, c)
            && forall key :: NotUsed(HalfOf(b, Opposite(t.side)).orders, key) ==> NotUsed(m.half.orders, key)
  {
    hide Match, WellFormed, FillsTold, IndexSound, Apart, Found, NotUsed;
    var h, own := HalfOf(b, Opposite(t.side)), HalfOf(b, t.side);
    InvariantGivesSides(b);
    var m := Match(cfg, t, h, b.index);
    var n, partial := MatchIsPriceTime(cfg, t, h, b.index);
    RemainingAt(h.orders, n, partial);
    assert KeysFrom(m.half.orders, h.orders, n);
    forall i | 0 <= i < |own.orders|
      ensures forall k :: 0 <= k < |h.orders| ==> h.orders[k].marketOrderId != own.orders[i].marketOrderId
    {
      OtherSideIds(b, t.side, i);
    }
    hide Invariant, PriceTime;
    RemainderFound(b.index, m.index, h.orders, m.half.orders, n, c);
    OthersFound(b.index, m.index, h.orders, own.orders, n, c);
  }

  /** `rest` has the keys and the ids of `orders` from the `n`th on. */
  ghost predicate KeysFrom(rest: seq<Resting>, orders: seq<Resting>, n: nat) {
    && n + |rest| == |orders|
    && (forall i :: 0 <= i < |rest| ==>
          KeyOf(rest[i]) == KeyOf(orders[n + i]) && rest[i].marketOrderId == orders[n + i].marketOrderId)
  }

  lemma RemainderFound(index: map<Key, nat>, index': map<Key, nat>, orders: seq<Resting>, rest: seq<Resting>, n: nat,
                       c: nat)
    requires Found(index, orders, c) && n <= |orders| && IndexWithout(index', index, orders, n)
             && KeysFrom(rest, orders, n)
    requires forall i, j :: 0 <= i < j < |orders| ==> orders[i].marketOrderId != orders[j].marketOrderId
    ensures Found(index', rest, c)
    ensures forall key :: NotUsed(orders, key) ==> NotUsed(rest, key)
  {
    forall i | 0 <= i < |rest| && rest[i].clientId == c
      ensures FoundOrder(index', rest[i])
    {
      assert KeyOf(rest[i]) == KeyOf(orders[n + i]) && FoundOrder(index, orders[n + i]);
      assert forall j :: 0 <= j < n && orders[j].clientId == c ==> FoundOrder(index, orders[j]);
    }
  }

  lemma OthersFound(index: map<Key, nat>, index': map<Key, nat>, orders: seq<Resting>, others: seq<Resting>, n: nat,
                    c: nat)
    requires Found(index, orders, c) && Found(index, others, c)
    requires n <= |orders| && IndexWithout(index', index, orders, n)
    requires forall i, k :: 0 <= i < |others| && 0 <= k < |orders| ==>
               orders[k].marketOrderId != others[i].marketOrderId
    ensures Found(index', others, c)
  {
    forall i | 0 <= i < |others| && others[i].clientId == c
      ensures FoundOrder(index', others[i])
    {
      assert FoundOrder(index, others[i]);
      assert forall j :: 0 <= j < n && orders[j].clientId == c ==> FoundOrder(index, orders[j]);
    }
  }

  lemma OtherSideIds(b: Book, side: Direction, i: nat)
    requires Invariant(b) && i < |HalfOf(b, side).orders|
    ensures var other := HalfOf(b, Opposite(side)).orders;
            forall k :: 0 <= k < |other| ==> other[k].marketOrderId != HalfOf(b, side).orders[i].marketOrderId
  {
    hide WellFormed, IndexSound, IdsOk;
  }

  /** Resting an order keeps the index complete for its own client exactly when no other order has
      its key, and for any other client always. */
  lemma RestComplete(index: map<Key, nat>, side: Direction, h: Half, other: seq<Resting>, x: Resting, c: nat)
    requires Found(index, h.orders, c) && Found(index, other, c)
    requires |h.nextPriority| == TICK_COUNT && 0 <= x.tick < TICK_COUNT
    requires x.priority == h.nextPriority[x.tick]
    requires forall i :: 0 <= i < |h.orders| ==> h.orders[i].marketOrderId != x.marketOrderId
    requires forall i :: 0 <= i < |other| ==> other[i].marketOrderId != x.marketOrderId
    ensures var orders := Insert(side, h, x.tick, x.clientId, x.clientOrderId, x.marketOrderId, x.quantity).orders;
            Found(index[KeyOf(x) := x.marketOrderId], orders, c) && Found(index[KeyOf(x) := x.marketOrderId], other, c)
            <==> x.clientId != c || (NotUsed(h.orders, KeyOf(x)) && NotUsed(other, KeyOf(x)))
  {
    hide InsertPos, Found, NotUsed;
    var index' := index[KeyOf(x) := x.marketOrderId];
    Refound(index, h.orders, x, c);
    Refound(index, other, x, c);
    FoundSpliced(index', h.orders, InsertPos(side, h.orders, x.tick), x, c);
  }

  /** A new entry hides the orders that have its key, and no others. */
  lemma Refound(index: map<Key, nat>, orders: seq<Resting>, x: Resting, c: nat)
    requires Found(index, orders, c) && forall i :: 0 <= i < |orders| ==> orders[i].marketOrderId != x.marketOrderId
    ensures Found(index[KeyOf(x) := x.marketOrderId], orders, c) <==> x.clientId != c || NotUsed(orders, KeyOf(x))
  {
    forall i | 0 <= i < |orders| && orders[i].clientId == c
      ensures FoundOrder(index[KeyOf(x) := x.marketOrderId], orders[i]) <==> KeyOf(orders[i]) != KeyOf(x)
    {
      assert FoundOrder(index, orders[i]);
    }
  }

  lemma FoundSpliced(index: map<Key, nat>, orders: seq<Resting>, p: nat, x: Resting, c: nat)
    requires p <= |orders|
    ensures Found(index, orders[..p] + [x] + orders[p..], c)
       <==> Found(index, orders, c) && (x.clientId == c ==> FoundOrder(index, x))
  {
    var longer := orders[..p] + [x] + orders[p..];
    assert longer[p] == x;
    forall i | 0 <= i < |orders|
      ensures longer[if i < p then i else i + 1] == orders[i]
    {
    }
    forall i | 0 <= i < |longer| && i != p
      ensures longer[i] == orders[if i < p then i else i - 1]
    {
    }
    if Found(index, longer, c) {
      forall i | 0 <= i < |orders| && orders[i].clientId == c
        ensures FoundOrder(index, orders[i])
      {
        assert FoundOrder(index, longer[if i < p then i else i + 1]);
      }
    }
  }

  lemma RemoveComplete(cfg: Config, b: Book, side: Direction, i: nat, c: nat)
    requires Invariant(b) && BookTicksOk(b) && IndexComplete(b, c) && i < |HalfOf(b, side).orders|
    ensures IndexComplete(RemoveFrom(cfg, b, side, i).book, c)
  {
    hide WellFormed, IndexSound, HasTick, Apart;
    var h, other := HalfOf(b, side), HalfOf(b, Opposite(side)).orders;
    var rest, index' := RemoveAt(h, i).orders, b.index - {KeyOf(h.orders[i])};
    assert h.orders[i].clientId == c ==> FoundOrder(b.index, h.orders[i]);
    forall k | 0 <= k < |rest| && rest[k].clientId == c
      ensures FoundOrder(index', rest[k])
    {
      assert rest[k] == h.orders[if k < i then k else k + 1];
      assert FoundOrder(b.index, rest[k]);
    }
    OtherSideIds(b, side, i);
    forall k | 0 <= k < |other| && other[k].clientId == c
      ensures FoundOrder(index', other[k])
    {
      assert FoundOrder(b.index, other[k]);
    }
  }

  /** A request keeps the index complete for a client, if a new order of that client brings a
      key that is free. */
  lemma StepComplete(cfg: Config, b: Book, r: Request, c: nat)
    requires cfg.band.IsValid() && Acceptable(cfg, r) && Invariant(b) && IndexComplete(b, c)
    requires r.New? && r.clientId == c ==> KeyIsFree(b, (r.clientId, r.clientOrderId))
    ensures BookTicksOk(b) && IndexComplete(Step(cfg, b, r).book, c)
  {
    hide Match, WellFormed, Invariant, Insert, Found, NotUsed, RemoveFrom;
    InvariantGivesSides(b);
    InvariantGivesBookTicks(b);
    if r.New? {
      PriceOfTick(cfg.band, r.price);
      var tick := cfg.band.ToTick(r.price);
      var t := Taker(r.clientId, r.clientOrderId, b.nextId, r.side, tick, r.quantity);
      MatchComplete(cfg, b, t, c);
      var m, own := Match(cfg, t, HalfOf(b, Opposite(r.side)), b.index), HalfOf(b, r.side);
      if m.left > 0 {
        MatchKeeps(cfg, b, t);
        var b1 := WithHalf(b, Opposite(r.side), m.half).(index := m.index);
        IdsBelow(b1);
        RestComplete(m.index, r.side, own, m.half.orders,
                     Resting(r.clientId, r.clientOrderId, b.nextId, tick, m.left, own.nextPriority[tick]), c);
      }
    } else {
      var key := (r.clientId, r.clientOrderId);
      if key in b.index && Position(b.bids.orders, b.index[key]) < |b.bids.orders| {
        RemoveComplete(cfg, b, BUY, Position(b.bids.orders, b.index[key]), c);
      } else if key in b.index && Position(b.asks.orders, b.index[key]) < |b.asks.orders| {
        RemoveComplete(cfg, b, SELL, Position(b.asks.orders, b.index[key]), c);
      }
    }
  }

  lemma IdsBelow(b: Book)
    requires Invariant(b)
    ensures forall i :: 0 <= i < |b.bids.orders| ==> b.bids.orders[i].marketOrderId < b.nextId
    ensures forall i :: 0 <= i < |b.asks.orders| ==> b.asks.orders[i].marketOrderId < b.nextId
  {
  }
}
