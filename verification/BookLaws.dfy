/** What a request does to the book of a symbol, said in prices, quantities and messages alone. */
module BookLaws {
  import opened Types
  import opened PriceBands
  import opened HalfBooks
  import opened Books
  import opened BookFacts
  import BookIndexes

  // ----- new orders -----

  /** The maker rests at the price asked for or at a better one. */
  predicate Reaches(cfg: Config, r: Request, maker: Resting)
    requires r.New?
  {
    if r.side == BUY then cfg.band.ToPrice(maker.tick) <= r.price else cfg.band.ToPrice(maker.tick) >= r.price
  }

  /** The makers trade in the order in which they queue, exactly as far as price and quantity allow: the
      first `n` entirely, then `partial` of the next; with quantity left over, no maker that remains is at
      the price asked for or better. */
  ghost predicate MakersTrade(cfg: Config, r: Request, makers: seq<Resting>, left: nat, n: nat, partial: nat)
    requires r.New?
  {
    && n <= |makers| && Depth(makers, n) + partial + left == r.quantity
    && (forall i :: 0 <= i < n ==> Reaches(cfg, r, makers[i]))
    && (partial > 0 ==>
          n < |makers| && partial < makers[n].quantity && left == 0 && Reaches(cfg, r, makers[n]))
    && (left > 0 ==> forall i :: n <= i < |makers| ==> !Reaches(cfg, r, makers[i]))
  }

  /** Order `id` queues at the price asked for, behind every order at that price or better, with the
      quantity left over; nothing else changes. */
  ghost predicate Queues(cfg: Config, r: Request, id: nat, left: nat, h: Half, h': Half, p: nat)
    requires r.New?
  {
    && p <= |h.orders| && |h'.orders| == |h.orders| + 1
    && var x := h'.orders[p];
       && h'.orders == h.orders[..p] + [x] + h.orders[p..]
       && KeyOf(x) == (r.clientId, r.clientOrderId) && x.marketOrderId == id && x.quantity == left
       && cfg.band.ToPrice(x.tick) == r.price
       && (forall i :: 0 <= i < p ==> !Better(r.side, r.price, cfg.band.ToPrice(h.orders[i].tick)))
       && (forall i :: p <= i < |h.orders| ==> Better(r.side, r.price, cfg.band.ToPrice(h.orders[i].tick)))
       && 0 <= x.tick < |h.nextPriority| && x.priority == h.nextPriority[x.tick]
       && h'.nextPriority == h.nextPriority[x.tick := x.priority + 1]
  }

  /** The priority counter of a price at which orders remain is as it was. */
  ghost predicate CountersKept(h: Half, h': Half) {
    && |h'.nextPriority| == |h.nextPriority|
    && forall t :: 0 <= t < |h.nextPriority| && HasTick(h'.orders, t) ==> h'.nextPriority[t] == h.nextPriority[t]
  }

  /** The index leads to the order that rests, no longer to those that are filled, and else as before. */
  ghost predicate IndexFollows(r: Request, id: nat, left: nat, index: map<Key, nat>, index': map<Key, nat>,
                               filled: seq<Resting>)
  {
    forall key ::
      if left > 0 && key == (r.clientId, r.clientOrderId) then key in index' && index'[key] == id
      else
        && (key in index' <==> key in index && forall i :: 0 <= i < |filled| ==> KeyOf(filled[i]) != key)
        && (key in index' ==> index'[key] == index[key])
  }

  /** A new order is accepted under the next id, trades in price-time order at the makers' prices, and
      rests with what is left over; whoever trades is told, and so is the market. */
  ghost predicate NewLaw(cfg: Config, b: Book, r: Request, done: Outcome, left: nat, n: nat, partial: nat, p: nat)
    requires r.New?
  {
    var makers, makers' := HalfOf(b, Opposite(r.side)), HalfOf(done.book, Opposite(r.side));
    var own, own' := HalfOf(b, r.side), HalfOf(done.book, r.side);
    && MakersTrade(cfg, r, makers.orders, left, n, partial)
    && makers'.orders == Remaining(makers.orders, n, partial) && CountersKept(makers, makers')
    && done.book.nextId == b.nextId + 1
    && IndexFollows(r, b.nextId, left, b.index, done.book.index, makers.orders[..n])
    && done.responses != []
    && done.responses[0] == Response(ACCEPTED, r.clientId, cfg.symbol, r.clientOrderId, b.nextId, r.side, r.price, 0,
                                     r.quantity)
    && var trader := Trader(r.clientId, r.clientOrderId, b.nextId, r.side);
       if left == 0 then
         && own' == own
         && FillsTold(cfg, trader, r.quantity, makers.orders, n, partial, done.responses[1..], done.updates)
       else
         && Queues(cfg, r, b.nextId, left, own, own', p)
         && done.updates != []
         && var last := |done.updates| - 1;
            && done.updates[last] == Update(ADD, cfg.symbol, b.nextId, r.side, r.price, left, own'.orders[p].priority)
            && FillsTold(cfg, trader, r.quantity, makers.orders, n, partial, done.responses[1..], done.updates[..last])
  }

  ghost predicate NewHonoured(cfg: Config, b: Book, r: Request, done: Outcome)
    requires r.New?
  {
    exists left: nat, n: nat, partial: nat, p: nat :: NewLaw(cfg, b, r, done, left, n, partial, p)
  }

  lemma ReachesIsCrosses(cfg: Config, r: Request, limitTick: int, maker: Resting)
    requires r.New? && cfg.band.IsValid() && cfg.band.ToPrice(limitTick) == r.price
    ensures Reaches(cfg, r, maker) <==> Crosses(r.side, limitTick, maker.tick)
  {
    PriceOrder(cfg.band, maker.tick, limitTick);
    PriceOrder(cfg.band, limitTick, maker.tick);
  }

  lemma {:induction false} MatchKeepsCounters(cfg: Config, t: Taker, h: Half, index: map<Key, nat>)
    requires TicksOk(h)
    ensures var h' := Match(cfg, t, h, index).half;
            CountersKept(h, h') && forall k :: HasTick(h'.orders, k) ==> HasTick(h.orders, k)
    decreases t.quantity + |h.orders|
  {
    if CanTrade(t, h) {
      MatchUnfold(cfg, t, h, index);
      FillKeepsCounters(cfg, t, h, index);
      hide FillFirst, HasTick;
      var first := FillFirst(cfg, t, h, index);
      MatchKeepsCounters(cfg, t.(quantity := first.left), first.half, first.index);
    }
  }

  lemma FillKeepsCounters(cfg: Config, t: Taker, h: Half, index: map<Key, nat>)
    requires TicksOk(h) && h.orders != []
    ensures var h' := FillFirst(cfg, t, h, index).half;
            CountersKept(h, h') && forall k :: HasTick(h'.orders, k) ==> HasTick(h.orders, k)
  {
    var h' := FillFirst(cfg, t, h, index).half;
    FillShape(cfg, t, h, index);
    FirstCounter(cfg, t, h, index);
    hide FillFirst, TakerFilled, MakerFilled, Traded, Gone, Reduced;
    forall k | HasTick(h'.orders, k)
      ensures HasTick(h.orders, k)
    {
      var i :| 0 <= i < |h'.orders| && h'.orders[i].tick == k;
      assert h.orders[if |h'.orders| == |h.orders| then i else i + 1].tick == k;
    }
  }

  lemma FirstCounter(cfg: Config, t: Taker, h: Half, index: map<Key, nat>)
    requires TicksOk(h) && h.orders != []
    ensures CountersKept(h, FillFirst(cfg, t, h, index).half)
  {
    hide HasTick, TakerFilled, MakerFilled, Traded, Gone, Reduced;
  }

  /** Ticks cross exactly as prices reach. */
  lemma TradeInPrices(cfg: Config, r: Request, t: Taker, orders: seq<Resting>, left: nat, rest: seq<Resting>,
                      n: nat, partial: nat)
    requires r.New? && cfg.band.IsValid() && cfg.band.ToPrice(t.limitTick) == r.price
    requires t.side == r.side && t.quantity == r.quantity
    requires PriceTime(t, orders, left, rest, n, partial)
    requires left > 0 ==> forall i :: 0 <= i < |rest| ==> !Crosses(r.side, t.limitTick, rest[i].tick)
    ensures MakersTrade(cfg, r, orders, left, n, partial) && rest == Remaining(orders, n, partial)
  {
    RemainingAt(orders, n, partial);
    hide Remaining, Depth, Crosses, Reaches;
    forall i | 0 <= i < |orders|
      ensures Reaches(cfg, r, orders[i]) <==> Crosses(r.side, t.limitTick, orders[i].tick)
      ensures left > 0 && n <= i ==> !Crosses(r.side, t.limitTick, orders[i].tick)
    {
      ReachesIsCrosses(cfg, r, t.limitTick, orders[i]);
      if left > 0 && n <= i {
        assert rest[i - n].tick == orders[n + (i - n)].tick;
      }
    }
  }

  /** Which makers trade with a new order. */
  lemma MakersOfNew(cfg: Config, r: Request, t: Taker, h: Half, index: map<Key, nat>)
    returns (n: nat, partial: nat)
    requires r.New? && cfg.band.IsValid() && cfg.band.ToPrice(t.limitTick) == r.price
    requires t.side == r.side && t.quantity == r.quantity
    requires WellFormed(Opposite(r.side), h) && Positive(h.orders) && TicksOk(h)
    ensures var m := Match(cfg, t, h, index);
            && MakersTrade(cfg, r, h.orders, m.left, n, partial)
            && m.half.orders == Remaining(h.orders, n, partial)
            && FillsTold(cfg, TraderOf(t), r.quantity, h.orders, n, partial, m.responses, m.updates)
            && IndexWithout(m.index, index, h.orders, n)
  {
    hide Match, WellFormed, FillsTold, IndexWithout, PriceTime, MakersTrade, Remaining, Crosses;
    n, partial := MatchIsPriceTime(cfg, t, h, index);
    NothingCrosses(cfg, t, h, index);
    var m := Match(cfg, t, h, index);
    TradeInPrices(cfg, r, t, h.orders, m.left, m.half.orders, n, partial);
  }

  /** Where the rest of a new order queues. */
  lemma RestQueues(cfg: Config, r: Request, id: nat, left: nat, h: Half)
    requires r.New? && cfg.band.IsValid() && cfg.band.InBand(r.price) && WellFormed(r.side, h)
    ensures var tick := cfg.band.ToTick(r.price);
            && 0 <= tick < TICK_COUNT
            && Queues(cfg, r, id, left, h, Insert(r.side, h, tick, r.clientId, r.clientOrderId, id, left),
                      InsertPos(r.side, h.orders, tick))
  {
    PriceOfTick(cfg.band, r.price);
    var tick := cfg.band.ToTick(r.price);
    InsertPosSplits(r.side, h.orders, tick);
    hide InsertPos;
    forall i | 0 <= i < |h.orders|
      ensures Better(r.side, tick, h.orders[i].tick)
         <==> Better(r.side, r.price, cfg.band.ToPrice(h.orders[i].tick))
    {
      PriceOrder(cfg.band, tick, h.orders[i].tick);
      PriceOrder(cfg.band, h.orders[i].tick, tick);
    }
  }

  /** What matching an incoming order comes to, with the price of its limit tick as the price asked for. */
  ghost predicate MatchLaw(cfg: Config, t: Taker, orders: seq<Resting>, index: map<Key, nat>, m: Matched,
                           n: nat, partial: nat)
  {
    && MakersTrade(cfg, New(t.clientId, t.clientOrderId, t.side, cfg.band.ToPrice(t.limitTick), t.quantity), orders,
                   m.left, n, partial)
    && m.half.orders == Remaining(orders, n, partial)
    && FillsTold(cfg, TraderOf(t), t.quantity, orders, n, partial, m.responses, m.updates)
    && IndexWithout(m.index, index, orders, n)
  }

  ghost predicate MatchHonoured(cfg: Config, t: Taker, orders: seq<Resting>, index: map<Key, nat>, m: Matched) {
    exists n: nat, partial: nat :: MatchLaw(cfg, t, orders, index, m, n, partial)
  }

  lemma MatchIsHonoured(cfg: Config, t: Taker, h: Half, index: map<Key, nat>)
    requires cfg.band.IsValid()
    requires WellFormed(Opposite(t.side), h) && Positive(h.orders) && TicksOk(h)
    ensures MatchHonoured(cfg, t, h.orders, index, Match(cfg, t, h, index))
  {
    hide Match, WellFormed, Positive, FillsTold, MakersTrade, IndexWithout, Remaining;
    var r := New(t.clientId, t.clientOrderId, t.side, cfg.band.ToPrice(t.limitTick), t.quantity);
    var n, partial := MakersOfNew(cfg, r, t, h, index);
    assert MatchLaw(cfg, t, h.orders, index, Match(cfg, t, h, index), n, partial);
  }

  lemma IndexAfterNew(r: Request, id: nat, left: nat, index: map<Key, nat>, m: map<Key, nat>, index': map<Key, nat>,
                      makers: seq<Resting>, n: nat)
    requires r.New? && n <= |makers| && IndexWithout(m, index, makers, n)
    requires index' == if left > 0 then m[(r.clientId, r.clientOrderId) := id] else m
    ensures IndexFollows(r, id, left, index, index', makers[..n])
  {
  }

  /** The parts of a new order's outcome: what the matching leaves and says, and then the order that rests. */
  lemma NewParts(cfg: Config, b: Book, r: Request, m: Matched)
    requires cfg.band.IsValid() && r.New? && Acceptable(cfg, r) && Invariant(b) && BookTicksOk(b)
    requires var t := Taker(r.clientId, r.clientOrderId, b.nextId, r.side, cfg.band.ToTick(r.price), r.quantity);
             m == Match(cfg, t, HalfOf(b, Opposite(r.side)), b.index)
    ensures 0 <= cfg.band.ToTick(r.price) < TICK_COUNT
    ensures var done, own, tick := Add(cfg, b, r), HalfOf(b, r.side), cfg.band.ToTick(r.price);
            && HalfOf(done.book, Opposite(r.side)) == m.half && done.book.nextId == b.nextId + 1
            && done.responses == [Accepted(cfg, r, b.nextId)] + m.responses
            && if m.left == 0 then
                 HalfOf(done.book, r.side) == own && done.book.index == m.index && done.updates == m.updates
               else
                 && done.book.index == m.index[(r.clientId, r.clientOrderId) := b.nextId]
                 && HalfOf(done.book, r.side)
                    == Insert(r.side, own, tick, r.clientId, r.clientOrderId, b.nextId, m.left)
                 && done.updates == m.updates + [Update(ADD, cfg.symbol, b.nextId, r.side, cfg.band.ToPrice(tick),
                                                        m.left, own.nextPriority[tick])]
  {
    hide Match, Invariant, Insert;
    PriceOfTick(cfg.band, r.price);
  }

  lemma LastOf<T>(s: seq<T>, x: T)
    ensures s + [x] != [] && (s + [x])[|s + [x]| - 1] == x && (s + [x])[..|s + [x]| - 1] == s
    ensures ([x] + s)[1..] == s
  {
  }

  /** Every new order is honoured: whatever rests, it trades with whom it should, at the price and as far
      as it should, rests at the price asked for, and everybody is told the truth. */
  lemma NewIsHonoured(cfg: Config, b: Book, r: Request)
    requires cfg.band.IsValid() && r.New? && Acceptable(cfg, r) && Invariant(b)
    ensures BookTicksOk(b) && NewHonoured(cfg, b, r, Add(cfg, b, r))
  {
    InvariantGivesBookTicks(b);
    InvariantGivesSides(b);
    PriceOfTick(cfg.band, r.price);
    hide Invariant, Add, Match, WellFormed, FillsTold, IndexWithout, MakersTrade, Positive, NewLaw, Remaining;
    var makers, own := HalfOf(b, Opposite(r.side)), HalfOf(b, r.side);
    var t := Taker(r.clientId, r.clientOrderId, b.nextId, r.side, cfg.band.ToTick(r.price), r.quantity);
    var m := Match(cfg, t, makers, b.index);
    NewParts(cfg, b, r, m);
    var n, partial := MakersOfNew(cfg, r, t, makers, b.index);
    MatchKeepsCounters(cfg, t, makers, b.index);
    var p := InsertPos(r.side, own.orders, t.limitTick);
    if m.left == 0 {
      AllTraded(cfg, b, r, Add(cfg, b, r), m, n, partial, p);
    } else {
      RestQueues(cfg, r, b.nextId, m.left, own);
      RestPriority(cfg, r, b.nextId, m.left, own);
      RestLeft(cfg, b, r, Add(cfg, b, r), m, n, partial, p);
    }
    assert NewLaw(cfg, b, r, Add(cfg, b, r), m.left, n, partial, p);
  }

  /** What matching gives the law, with or without an order that rests. */
  ghost predicate MatchGives(cfg: Config, b: Book, r: Request, done: Outcome, m: Matched, n: nat, partial: nat)
    requires r.New?
  {
    var makers := HalfOf(b, Opposite(r.side));
    && MakersTrade(cfg, r, makers.orders, m.left, n, partial)
    && m.half.orders == Remaining(makers.orders, n, partial) && CountersKept(makers, m.half)
    && FillsTold(cfg, Trader(r.clientId, r.clientOrderId, b.nextId, r.side), r.quantity, makers.orders, n, partial,
                 m.responses, m.updates)
    && IndexWithout(m.index, b.index, makers.orders, n)
    && HalfOf(done.book, Opposite(r.side)) == m.half && done.book.nextId == b.nextId + 1
    && done.responses == [Accepted(cfg, r, b.nextId)] + m.responses
  }

  lemma AllTraded(cfg: Config, b: Book, r: Request, done: Outcome, m: Matched, n: nat, partial: nat, p: nat)
    requires r.New? && MatchGives(cfg, b, r, done, m, n, partial) && m.left == 0
    requires HalfOf(done.book, r.side) == HalfOf(b, r.side) && done.book.index == m.index && done.updates == m.updates
    ensures NewLaw(cfg, b, r, done, 0, n, partial, p)
  {
    MakersInRange(cfg, r, HalfOf(b, Opposite(r.side)).orders, 0, n, partial);
    IndexAfterNew(r, b.nextId, 0, b.index, m.index, m.index, HalfOf(b, Opposite(r.side)).orders, n);
    LastOf(m.responses, Accepted(cfg, r, b.nextId));
    hide MakersTrade, CountersKept, FillsTold, IndexWithout, IndexFollows, Remaining, Queues;
  }

  lemma RestLeft(cfg: Config, b: Book, r: Request, done: Outcome, m: Matched, n: nat, partial: nat, p: nat)
    requires r.New? && MatchGives(cfg, b, r, done, m, n, partial) && m.left > 0
    requires Queues(cfg, r, b.nextId, m.left, HalfOf(b, r.side), HalfOf(done.book, r.side), p)
    requires p < |HalfOf(done.book, r.side).orders|
    requires done.book.index == m.index[(r.clientId, r.clientOrderId) := b.nextId]
    requires done.updates == m.updates + [Update(ADD, cfg.symbol, b.nextId, r.side, r.price, m.left,
                                                 HalfOf(done.book, r.side).orders[p].priority)]
    ensures NewLaw(cfg, b, r, done, m.left, n, partial, p)
  {
    MakersInRange(cfg, r, HalfOf(b, Opposite(r.side)).orders, m.left, n, partial);
    IndexAfterNew(r, b.nextId, m.left, b.index, m.index, done.book.index, HalfOf(b, Opposite(r.side)).orders, n);
    LastOf(m.responses, Accepted(cfg, r, b.nextId));
    LastOf(m.updates, done.updates[|done.updates| - 1]);
    hide MakersTrade, CountersKept, FillsTold, IndexWithout, IndexFollows, Remaining, Queues;
  }

  lemma MakersInRange(cfg: Config, r: Request, makers: seq<Resting>, left: nat, n: nat, partial: nat)
    requires r.New? && MakersTrade(cfg, r, makers, left, n, partial)
    ensures n <= |makers| && (partial > 0 ==> n < |makers| && partial < makers[n].quantity)
  {
  }

  lemma RestPriority(cfg: Config, r: Request, id: nat, left: nat, h: Half)
    requires r.New? && cfg.band.IsValid() && cfg.band.InBand(r.price) && WellFormed(r.side, h)
    ensures var tick := cfg.band.ToTick(r.price);
            && 0 <= tick < TICK_COUNT && cfg.band.ToPrice(tick) == r.price
            && var p := InsertPos(r.side, h.orders, tick);
               var h' := Insert(r.side, h, tick, r.clientId, r.clientOrderId, id, left);
               p < |h'.orders| && h'.orders[p].priority == h.nextPriority[tick]
  {
    hide InsertPos;
    PriceOfTick(cfg.band, r.price);
  }

  // ----- cancels -----

  /** Order `i` of a side is withdrawn: it has the key and the id that the index says, what it had left is
      reported at its own price, and nothing else changes. */
  ghost predicate WithdrawLaw(cfg: Config, b: Book, key: Key, done: Outcome, side: Direction, i: nat) {
    var h, h' := HalfOf(b, side), HalfOf(done.book, side);
    && key in b.index && i < |h.orders|
    && var o := h.orders[i];
       && KeyOf(o) == key && o.marketOrderId == b.index[key]
       && h'.orders == h.orders[..i] + h.orders[i + 1..] && CountersKept(h, h')
       && HalfOf(done.book, Opposite(side)) == HalfOf(b, Opposite(side))
       && done.book.nextId == b.nextId && done.book.index == b.index - {key}
       && done.responses == [Response(CANCELED, key.0, cfg.symbol, key.1, o.marketOrderId, side,
                                      cfg.band.ToPrice(o.tick), 0, o.quantity)]
       && done.updates == [Update(UpdateType.CANCEL, cfg.symbol, o.marketOrderId, side, cfg.band.ToPrice(o.tick),
                                  0, 0)]
  }

  /** A cancel withdraws the order the index leads to. Without one it is rejected, and the book stays. */
  ghost predicate CancelHonoured(cfg: Config, b: Book, key: Key, done: Outcome) {
    if key in b.index then exists side: Direction, i: nat :: WithdrawLaw(cfg, b, key, done, side, i)
    else done == Outcome(b, [Response(CANCEL_REJECTED, key.0, cfg.symbol, key.1, 0, NoSide, 0, 0, 0)], [])
  }

  lemma RemovalKeepsCounters(h: Half, i: nat)
    requires TicksOk(h) && i < |h.orders|
    ensures RemoveAt(h, i).orders == h.orders[..i] + h.orders[i + 1..] && CountersKept(h, RemoveAt(h, i))
  {
  }

  lemma RemovalIsLawful(cfg: Config, b: Book, side: Direction, i: nat)
    requires BookTicksOk(b) && i < |HalfOf(b, side).orders|
    requires var o := HalfOf(b, side).orders[i]; KeyOf(o) in b.index && o.marketOrderId == b.index[KeyOf(o)]
    ensures WithdrawLaw(cfg, b, KeyOf(HalfOf(b, side).orders[i]), RemoveFrom(cfg, b, side, i), side, i)
  {
    RemovalKeepsCounters(HalfOf(b, side), i);
    hide RemoveAt, CountersKept;
  }

  /** Every cancel is honoured. */
  lemma CancelIsHonoured(cfg: Config, b: Book, key: Key)
    requires Invariant(b)
    ensures BookTicksOk(b) && CancelHonoured(cfg, b, key, CancelOrder(cfg, b, key.0, key.1))
  {
    InvariantGivesBookTicks(b);
    hide Invariant, BookTicksOk, RemoveFrom, WithdrawLaw;
    if key in b.index {
      BookIndexes.IndexLeads(b, key);
      var id := b.index[key];
      var side: Direction := if Position(b.bids.orders, id) < |b.bids.orders| then BUY else SELL;
      var i := Position(HalfOf(b, side).orders, id);
      RemovalIsLawful(cfg, b, side, i);
      assert WithdrawLaw(cfg, b, key, CancelOrder(cfg, b, key.0, key.1), side, i);
    }
  }

  /** What a request comes to, whichever it is. */
  ghost predicate Honoured(cfg: Config, b: Book, r: Request, done: Outcome) {
    if r.New? then NewHonoured(cfg, b, r, done)
    else CancelHonoured(cfg, b, (r.clientId, r.clientOrderId), done)
  }

  lemma StepIsHonoured(cfg: Config, b: Book, r: Request)
    requires cfg.band.IsValid() && Acceptable(cfg, r) && Invariant(b)
    ensures BookTicksOk(b) && Honoured(cfg, b, r, Step(cfg, b, r))
  {
    hide Invariant, Acceptable, Add, CancelOrder, NewHonoured, CancelHonoured;
    if r.New? {
      NewIsHonoured(cfg, b, r);
    } else {
      CancelIsHonoured(cfg, b, (r.clientId, r.clientOrderId));
    }
  }

  // ----- consequences -----

  /** An order that rests on a side after a request rested there before, at the same price and with the
      same owner, unless it is the new order: then it rests at the price it asked for. */
  ghost predicate StillThere(orders: seq<Resting>, x: Resting) {
    exists k :: 0 <= k < |orders| && orders[k] == x.(quantity := orders[k].quantity)
  }

  ghost predicate IsNew(cfg: Config, b: Book, r: Request, side: Direction, x: Resting) {
    && r.New? && r.side == side && KeyOf(x) == (r.clientId, r.clientOrderId) && x.marketOrderId == b.nextId
    && cfg.band.ToPrice(x.tick) == r.price
  }

  lemma RemainStillThere(orders: seq<Resting>, n: nat, partial: nat)
    requires n <= |orders| && (partial > 0 ==> n < |orders| && partial < orders[n].quantity)
    ensures forall x :: x in Remaining(orders, n, partial) ==> StillThere(orders, x)
  {
    RemainingAt(orders, n, partial);
    forall x | x in Remaining(orders, n, partial)
      ensures StillThere(orders, x)
    {
      var i :| 0 <= i < |orders| - n && Remaining(orders, n, partial)[i] == x;
      assert orders[n + i] == x.(quantity := orders[n + i].quantity);
    }
  }

  lemma SameStillThere(orders: seq<Resting>)
    ensures forall x :: x in orders ==> StillThere(orders, x)
  {
    forall x | x in orders
      ensures StillThere(orders, x)
    {
      var i :| 0 <= i < |orders| && orders[i] == x;
      assert orders[i] == x.(quantity := orders[i].quantity);
    }
  }

  lemma RestsFrom(cfg: Config, b: Book, r: Request, done: Outcome)
    requires Honoured(cfg, b, r, done)
    ensures forall side: Direction, x :: x in HalfOf(done.book, side).orders ==>
              StillThere(HalfOf(b, side).orders, x) || IsNew(cfg, b, r, side, x)
  {
    if r.New? {
      var left: nat, n: nat, partial: nat, p: nat :| NewLaw(cfg, b, r, done, left, n, partial, p);
      NewRestsFrom(cfg, b, r, done, left, n, partial, p);
    } else {
      SameStillThere(b.bids.orders);
      SameStillThere(b.asks.orders);
      hide StillThere, CountersKept;
    }
  }

  lemma NewRestsFrom(cfg: Config, b: Book, r: Request, done: Outcome, left: nat, n: nat, partial: nat, p: nat)
    requires r.New? && NewLaw(cfg, b, r, done, left, n, partial, p)
    ensures forall side: Direction, x :: x in HalfOf(done.book, side).orders ==>
              StillThere(HalfOf(b, side).orders, x) || IsNew(cfg, b, r, side, x)
  {
    var makers, own := HalfOf(b, Opposite(r.side)).orders, HalfOf(b, r.side).orders;
    RemainStillThere(makers, n, partial);
    SameStillThere(own);
    hide StillThere, FillsTold, IndexFollows, CountersKept, Remaining, Depth, Reaches;
    forall side: Direction, x | x in HalfOf(done.book, side).orders
      ensures StillThere(HalfOf(b, side).orders, x) || IsNew(cfg, b, r, side, x)
    {
      if side != r.side {
        assert side == Opposite(r.side);
      }
    }
  }
}
