/** Position and profit of one instrument, kept up incrementally; doubles are reals. */
module PositionKeepers {
  import opened Types

  datatype Fill = Fill(side: Direction, price: int, quantity: nat)

  /** `n` times one for a buy, times minus one for a sell. */
  function Signed(side: Direction, n: int): int {
    if side == BUY then n else -n
  }

  function SignedReal(side: Direction, x: real): real {
    if side == BUY then x else -x
  }

  /** Money for `size` units at `price`. */
  function Cost(price: real, size: int): real {
    price * size as real
  }

  function Abs(x: int): (a: nat)
    ensures a == x || a == -x
  {
    if x < 0 then -x else x
  }

  // ----- the simple ledger -----

  /** Bought less sold. */
  function NetPosition(fills: seq<Fill>): int {
    if fills == [] then 0
    else var f := fills[|fills| - 1]; NetPosition(fills[..|fills| - 1]) + Signed(f.side, f.quantity)
  }

  function Paid(f: Fill): real {
    SignedReal(f.side, Cost(f.price as real, f.quantity))
  }

  /** Money received less money paid. */
  function Cash(fills: seq<Fill>): real {
    if fills == [] then 0.0 else Cash(fills[..|fills| - 1]) - Paid(fills[|fills| - 1])
  }

  /** Money in hand and an open position valued at `price`. */
  function Worth(cash: real, position: int, price: real): real {
    cash + position as real * price
  }

  function TotalQuantity(fills: seq<Fill>): nat {
    if fills == [] then 0 else TotalQuantity(fills[..|fills| - 1]) + fills[|fills| - 1].quantity
  }

  /** What the open position cost, at average prices: a fill that adds to the position adds its
      money, a fill that reduces it leaves the price per unit as it was, and a fill that
      flips it starts again at its own price. */
  ghost function OpenCost(fills: seq<Fill>): real {
    if fills == [] then 0.0
    else
      var f, before := fills[|fills| - 1], fills[..|fills| - 1];
      CostAfter(OpenCost(before), NetPosition(before), f)
  }

  function CostAfter(cost: real, was: int, f: Fill): real {
    var now, price := was + Signed(f.side, f.quantity), f.price as real;
    if Signed(f.side, was) >= 0 then cost + Cost(price, f.quantity)
    else if f.quantity > Abs(was) then Cost(price, Abs(now))
    else Cost(cost / Abs(was) as real, Abs(now))
  }

  /** The average price of the open position never leaves the range of the prices traded. */
  lemma {:induction false} AverageWithinPrices(fills: seq<Fill>, low: real, high: real)
    requires forall i :: 0 <= i < |fills| ==> low <= fills[i].price as real <= high
    ensures Cost(low, Abs(NetPosition(fills))) <= OpenCost(fills) <= Cost(high, Abs(NetPosition(fills)))
  {
    if fills == [] {
    } else {
      var f, before := fills[|fills| - 1], fills[..|fills| - 1];
      AverageWithinPrices(before, low, high);
      AverageStays(OpenCost(before), NetPosition(before), f, low, high);
    }
  }

  lemma AverageStays(cost: real, was: int, f: Fill, low: real, high: real)
    requires Cost(low, Abs(was)) <= cost <= Cost(high, Abs(was)) && low <= f.price as real <= high
    ensures var now := was + Signed(f.side, f.quantity);
            Cost(low, Abs(now)) <= CostAfter(cost, was, f) <= Cost(high, Abs(now))
  {
    var now, price := was + Signed(f.side, f.quantity), f.price as real;
    if Signed(f.side, was) >= 0 {
      CostMonotone(low, price, f.quantity);
      CostMonotone(price, high, f.quantity);
      assert Abs(now) == Abs(was) + f.quantity;
      CostAdds(low, Abs(was), f.quantity);
      CostAdds(high, Abs(was), f.quantity);
    } else if f.quantity > Abs(was) {
      CostMonotone(low, price, Abs(now));
      CostMonotone(price, high, Abs(now));
    } else {
      var size := Abs(was) as real;
      AverageBetween(low, cost, high, size);
      CostMonotone(low, cost / size, Abs(now));
      CostMonotone(cost / size, high, Abs(now));
    }
  }

  lemma AverageBetween(low: real, cost: real, high: real, size: real)
    requires size > 0.0 && low * size <= cost <= high * size
    ensures low <= cost / size <= high
  {
    var average := cost / size;
    assert average * size == cost;
    ScaledOrder(low, average, size);
    ScaledOrder(average, high, size);
  }

  lemma ScaledOrder(a: real, b: real, size: real)
    requires size > 0.0
    ensures a * size <= b * size <==> a <= b
  {
    if a <= b {
      assert (b - a) * size >= 0.0;
    } else {
      assert (a - b) * size > 0.0;
    }
  }

  lemma CostMonotone(a: real, b: real, size: nat)
    requires a <= b
    ensures Cost(a, size) <= Cost(b, size)
  {
    assert (b - a) * size as real >= 0.0;
  }

  lemma CostAdds(price: real, m: nat, n: nat)
    ensures Cost(price, m + n) == Cost(price, m) + Cost(price, n)
  {
  }

  /** The books agree with the ledger: the side of the position carries its cost and the
      other side none, and what was realised is the cash flow plus what the open position cost. */
  ghost predicate Booked(position: int, cash: real, cost: real, openBuy: real, openSell: real, realPnl: real) {
    && openBuy == (if position > 0 then cost else 0.0)
    && openSell == (if position < 0 then cost else 0.0)
    && realPnl == cash + openBuy - openSell
  }

  /** Unrealised profit of the open position at the price `mark`. */
  ghost predicate Marked(position: int, openBuy: real, openSell: real, unrealPnl: real, mark: real) {
    unrealPnl == position as real * mark - openBuy + openSell
  }

  /** What a fill does to the money in the open position, on its own side and on the other, and to the
      profit realised. A fill that adds to the position adds its money and realises nothing. One that
      reduces it leaves the average cost per unit as it was, and realises for each unit closed the
      difference between its price and that average. One that flips it realises that for the whole
      position and opens the rest at its own price. */
  ghost predicate FillLaw(f: Fill, was: int, own: real, other: real, realised: real,
                          now: int, own': real, other': real, realised': real)
  {
    var price, size, left, quantity := f.price as real, Abs(was) as real, Abs(now) as real, f.quantity as real;
    && now == was + Signed(f.side, f.quantity)
    && if Signed(f.side, was) >= 0 then
         own' == own + price * quantity && other' == other == 0.0 && realised' == realised
       else if f.quantity <= Abs(was) then
         && own' == own == 0.0 && other' * size == other * left
         && (realised' - realised) * size == SignedReal(f.side, (other - price * size) * quantity)
       else
         && own' == price * left && other' == 0.0
         && realised' - realised == SignedReal(f.side, other - price * size)
  }

  class PositionInfo {
    var position: int
    var realPnl: real
    var unrealPnl: real
    var totalPnl: real
    const openVwap: array<real>
    var volume: nat

    /** Every fill so far, and the price at which the open position was last valued. */
    ghost var fills: seq<Fill>
    ghost var mark: real

    ghost predicate Valid()
      reads this, openVwap
    {
      && openVwap.Length == 2
      && position == NetPosition(fills)
      && volume == TotalQuantity(fills) % 0x1_0000_0000
      && Booked(position, Cash(fills), OpenCost(fills), openVwap[0], openVwap[1], realPnl)
      && Marked(position, openVwap[0], openVwap[1], unrealPnl, mark)
      && totalPnl == unrealPnl + realPnl
    }

    constructor ()
      ensures Valid() && fills == [] && fresh(openVwap)
    {
      position, volume := 0, 0;
      realPnl, unrealPnl, totalPnl := 0.0, 0.0, 0.0;
      openVwap := new real[2](_ => 0.0);
      fills, mark := [], 0.0;
    }

    function Index(side: Direction): (i: nat)
      ensures i < 2
    {
      if side == BUY then 0 else 1
    }

    /** The fill opens or adds to a position: its cost is added. */
    method Increase(f: Fill, ghost oldPosition: int, ghost cash: real, ghost cost: real)
      requires openVwap.Length == 2 && position == oldPosition + Signed(f.side, f.quantity)
      requires Booked(oldPosition, cash, cost, openVwap[0], openVwap[1], realPnl)
      requires Signed(f.side, oldPosition) >= 0 && (oldPosition == 0 ==> cost == 0.0)
      modifies openVwap
      ensures Booked(position, cash - Paid(f), CostAfter(cost, oldPosition, f), openVwap[0], openVwap[1], realPnl)
    {
      var own := Index(f.side);
      NothingCosts(f.price as real);
      openVwap[own] := openVwap[own] + Cost(f.price as real, f.quantity);
    }

    /** The fill closes some or all of a position, and may open one on its own side. */
    method Decrease(f: Fill, oldPosition: int, ghost cash: real, ghost cost: real)
      requires openVwap.Length == 2 && position == oldPosition + Signed(f.side, f.quantity)
      requires Booked(oldPosition, cash, cost, openVwap[0], openVwap[1], realPnl)
      requires Signed(f.side, oldPosition) < 0
      modifies this`realPnl, openVwap
      ensures Booked(position, cash - Paid(f), CostAfter(cost, oldPosition, f), openVwap[0], openVwap[1], realPnl)
    {
      var own, opposite := Index(f.side), Index(Opposite(f.side));
      ghost var real0 := realPnl;
      assert cost == openVwap[opposite];
      Crossing(oldPosition, f.side, f.quantity);
      var vwap := openVwap[opposite] / Abs(oldPosition) as real;
      openVwap[opposite] := Cost(vwap, Abs(position));
      var gained := Cost(vwap - f.price as real, Min(f.quantity, Abs(oldPosition)));
      DecreaseBooked(f, oldPosition, cash, cost, vwap, gained, real0);
      hide Booked, Abs, Cost, CostAfter;
      realPnl := realPnl + SignedReal(f.side, gained);
      if position * oldPosition < 0 {
        openVwap[own] := Cost(f.price as real, Abs(position));
        openVwap[opposite] := 0.0;
      }
    }

    /** Values the open position at `price`. */
    method Mark(price: real)
      requires openVwap.Length == 2 && (position <= 0 ==> openVwap[0] == 0.0) && (position >= 0 ==> openVwap[1] == 0.0)
      requires position != 0
      modifies this`unrealPnl
      ensures Marked(position, openVwap[0], openVwap[1], unrealPnl, price)
    {
      var size := Abs(position) as real;
      if position > 0 {
        unrealPnl := (price - openVwap[0] / size) * size;
        AverageTimesSize(price, openVwap[0], size);
      } else {
        unrealPnl := (openVwap[1] / size - price) * size;
        AverageTimesSize(price, openVwap[1], size);
      }
    }

    /** Takes in an execution. Whatever the fills were, with any flips through zero, the total
        profit is the cash flow plus the position valued at the last price. */
    method AddFill(f: Fill)
      requires Valid()
      modifies this, openVwap
      ensures Valid() && fills == old(fills) + [f] && mark == f.price as real
      ensures totalPnl == Worth(Cash(fills), NetPosition(fills), f.price as real)
      ensures position == 0 ==> realPnl == Cash(fills) && unrealPnl == 0.0
      ensures FillLaw(f, old(position), old(openVwap[Index(f.side)]), old(openVwap[Index(Opposite(f.side))]),
                      old(realPnl), position, openVwap[Index(f.side)], openVwap[Index(Opposite(f.side))], realPnl)
    {
      hide Booked, Marked, Paid, NetPosition, Cash, TotalQuantity, OpenCost, CostAfter, Signed, Abs, Cost, Worth,
        FillLaw;
      var oldPosition := position;
      ghost var cash, cost := Cash(fills), OpenCost(fills);
      ghost var buy, sell, realised := openVwap[0], openVwap[1], realPnl;
      LedgerStep(fills, f);
      FlatCostsNothing(fills);
      fills := fills + [f];
      position := position + Signed(f.side, f.quantity);
      volume := (volume + f.quantity) % 0x1_0000_0000;
      if Signed(f.side, oldPosition) >= 0 {
        Increase(f, oldPosition, cash, cost);
      } else {
        Decrease(f, oldPosition, cash, cost);
      }
      BookedCosts(position, Cash(fills), OpenCost(fills), openVwap[0], openVwap[1], realPnl);
      if position == 0 {
        openVwap[0], openVwap[1] := 0.0, 0.0;
        unrealPnl := 0.0;
        FlatMarked(f.price as real);
      } else {
        Mark(f.price as real);
      }
      mark := f.price as real;
      totalPnl := unrealPnl + realPnl;
      TotalIsLedger(position, Cash(fills), OpenCost(fills), openVwap[0], openVwap[1], realPnl, unrealPnl, mark);
      FillIsLawful(f, oldPosition, cash, cost, buy, sell, realised, openVwap[0], openVwap[1], realPnl);
    }

    /** Values the open position at another price. */
    method Revalue(price: real)
      requires Valid() && position != 0
      modifies this`unrealPnl, this`totalPnl, this`mark
      ensures Valid() && mark == price
    {
      BookedCosts(position, Cash(fills), OpenCost(fills), openVwap[0], openVwap[1], realPnl);
      hide Booked, Marked, NetPosition, Cash, TotalQuantity, OpenCost, Worth;
      Mark(price);
      mark := price;
      totalPnl := unrealPnl + realPnl;
    }

    /** Values the open position at the middle of the best bid and offer when both exist. */
    method UpdateBBO(bidPrice: int, bidQuantity: nat, askPrice: int, askQuantity: nat)
      requires Valid()
      modifies this`unrealPnl, this`totalPnl, this`mark
      ensures Valid() && mark == if position != 0 && bidQuantity != 0 && askQuantity != 0
                                 then (bidPrice as real + askPrice as real) * 0.5 else old(mark)
      ensures totalPnl == Worth(Cash(fills), NetPosition(fills), mark)
    {
      hide Booked, Marked, NetPosition, Cash, TotalQuantity, OpenCost, Worth;
      if position != 0 && bidQuantity != 0 && askQuantity != 0 {
        Revalue((bidPrice as real + askPrice as real) * 0.5);
      }
      TotalIsLedger(position, Cash(fills), OpenCost(fills), openVwap[0], openVwap[1], realPnl, unrealPnl, mark);
    }
  }

  lemma LedgerStep(fills: seq<Fill>, f: Fill)
    ensures NetPosition(fills + [f]) == NetPosition(fills) + Signed(f.side, f.quantity)
    ensures Cash(fills + [f]) == Cash(fills) - Paid(f)
    ensures OpenCost(fills + [f]) == CostAfter(OpenCost(fills), NetPosition(fills), f)
    ensures TotalQuantity(fills + [f]) % 0x1_0000_0000
      == (TotalQuantity(fills) % 0x1_0000_0000 + f.quantity) % 0x1_0000_0000
  {
    hide CostAfter, Cost, Signed;
    assert (fills + [f])[..|fills|] == fills;
  }

  lemma NothingCosts(price: real)
    ensures Cost(price, 0) == 0.0
  {
  }

  lemma BookedCosts(position: int, cash: real, cost: real, openBuy: real, openSell: real, realPnl: real)
    requires Booked(position, cash, cost, openBuy, openSell, realPnl)
    ensures position <= 0 ==> openBuy == 0.0
    ensures position >= 0 ==> openSell == 0.0
  {
  }

  lemma TotalIsLedger(position: int, cash: real, cost: real, openBuy: real, openSell: real,
                      realPnl: real, unrealPnl: real, mark: real)
    requires Booked(position, cash, cost, openBuy, openSell, realPnl)
             && Marked(position, openBuy, openSell, unrealPnl, mark)
    ensures unrealPnl + realPnl == Worth(cash, position, mark)
    ensures position == 0 ==> realPnl == cash && unrealPnl == 0.0
  {
  }

  lemma FlatCostsNothing(fills: seq<Fill>)
    ensures NetPosition(fills) == 0 ==> OpenCost(fills) == 0.0
  {
    var low, high := PriceRange(fills);
    AverageWithinPrices(fills, low, high);
  }

  lemma {:induction false} PriceRange(fills: seq<Fill>) returns (low: real, high: real)
    ensures forall i :: 0 <= i < |fills| ==> low <= fills[i].price as real <= high
  {
    low, high := 0.0, 0.0;
    if fills == [] {
    } else {
      low, high := PriceRange(fills[1..]);
      assert forall i :: 0 < i < |fills| ==> fills[i] == fills[1..][i - 1];
      var p := fills[0].price as real;
      low, high := if p < low then p else low, if p > high then p else high;
    }
  }

  /** Reducing keeps the average: `left` of `size` units cost their share. */
  lemma ReducedCost(cost: real, size: nat, left: nat)
    requires size > 0
    ensures Cost(cost / size as real, left) * size as real == cost * left as real
  {
    var average := cost / size as real;
    assert average * size as real == cost;
    assert average * left as real * size as real == average * size as real * left as real;
  }

  /** The money on the side of a fill and on the other, as the books have it. */
  ghost predicate BookedOn(side: Direction, position: int, cash: real, cost: real, own: real, other: real,
                           realised: real) {
    && own == (if Signed(side, position) > 0 then cost else 0.0)
    && other == (if Signed(side, position) < 0 then cost else 0.0)
    && realised == cash + SignedReal(side, own - other)
  }

  /** Books that agree with the ledger before and after a fill obey the law. */
  lemma FillIsLawful(f: Fill, was: int, cash: real, cost: real, buy: real, sell: real, realised: real,
                     buy': real, sell': real, realised': real)
    requires Booked(was, cash, cost, buy, sell, realised) && (was == 0 ==> cost == 0.0)
    requires Booked(was + Signed(f.side, f.quantity), cash - Paid(f), CostAfter(cost, was, f), buy', sell', realised')
    ensures var now := was + Signed(f.side, f.quantity);
            if f.side == BUY then FillLaw(f, was, buy, sell, realised, now, buy', sell', realised')
            else FillLaw(f, was, sell, buy, realised, now, sell', buy', realised')
  {
    hide FillLaw, CostAfter, Paid;
    if f.side == BUY {
      FillLawful(f, was, cash, cost, buy, sell, realised, buy', sell', realised');
    } else {
      FillLawful(f, was, cash, cost, sell, buy, realised, sell', buy', realised');
    }
  }

  lemma FillLawful(f: Fill, was: int, cash: real, cost: real, own: real, other: real, realised: real,
                   own': real, other': real, realised': real)
    requires BookedOn(f.side, was, cash, cost, own, other, realised) && (was == 0 ==> cost == 0.0)
    requires BookedOn(f.side, was + Signed(f.side, f.quantity), cash - Paid(f), CostAfter(cost, was, f), own', other',
                      realised')
    ensures FillLaw(f, was, own, other, realised, was + Signed(f.side, f.quantity), own', other', realised')
  {
    hide FillLaw, CostAfter, Paid, BookedOn;
    if Signed(f.side, was) >= 0 {
      FillAdds(f, was, cash, cost, own, other, realised, own', other', realised');
    } else if f.quantity <= Abs(was) {
      FillReduces(f, was, cash, cost, own, other, realised, own', other', realised');
    } else {
      FillFlips(f, was, cash, cost, own, other, realised, own', other', realised');
    }
  }

  lemma FillAdds(f: Fill, was: int, cash: real, cost: real, own: real, other: real, realised: real,
                 own': real, other': real, realised': real)
    requires BookedOn(f.side, was, cash, cost, own, other, realised) && (was == 0 ==> cost == 0.0)
    requires BookedOn(f.side, was + Signed(f.side, f.quantity), cash - Paid(f), CostAfter(cost, was, f), own', other',
                      realised')
    requires Signed(f.side, was) >= 0
    ensures FillLaw(f, was, own, other, realised, was + Signed(f.side, f.quantity), own', other', realised')
  {
    AddedIsLawful(f, was, cost);
    hide CostAfter, Cost, Abs, Paid;
    var now := was + Signed(f.side, f.quantity);
    assert own == cost && other == 0.0 && other' == 0.0;
    assert own' == CostAfter(cost, was, f) by {
      if now == 0 {
        assert was == 0 && f.quantity == 0;
      }
    }
  }

  lemma FillReduces(f: Fill, was: int, cash: real, cost: real, own: real, other: real, realised: real,
                    own': real, other': real, realised': real)
    requires BookedOn(f.side, was, cash, cost, own, other, realised)
    requires BookedOn(f.side, was + Signed(f.side, f.quantity), cash - Paid(f), CostAfter(cost, was, f), own', other',
                      realised')
    requires Signed(f.side, was) < 0 && f.quantity <= Abs(was)
    ensures FillLaw(f, was, own, other, realised, was + Signed(f.side, f.quantity), own', other', realised')
  {
    var now, cost' := was + Signed(f.side, f.quantity), CostAfter(cost, was, f);
    Crossing(was, f.side, f.quantity);
    ReducedSides(f.side, was, f.quantity);
    ReducedIsLawful(f, was, cash, cost, realised, cost', cash - Paid(f) - SignedReal(f.side, cost'));
    hide CostAfter, Cost, Paid, Abs;
    if now == 0 {
      NothingLeft(cost', Abs(was) as real, cost);
    }
    assert own == own' == 0.0 && other == cost && other' == cost';
  }

  lemma FillFlips(f: Fill, was: int, cash: real, cost: real, own: real, other: real, realised: real,
                  own': real, other': real, realised': real)
    requires BookedOn(f.side, was, cash, cost, own, other, realised)
    requires BookedOn(f.side, was + Signed(f.side, f.quantity), cash - Paid(f), CostAfter(cost, was, f), own', other',
                      realised')
    requires Signed(f.side, was) < 0 && f.quantity > Abs(was)
    ensures FillLaw(f, was, own, other, realised, was + Signed(f.side, f.quantity), own', other', realised')
  {
    Crossing(was, f.side, f.quantity);
    FlippedIsLawful(f, was, cost);
    hide CostAfter, Cost, Abs, Paid;
    assert own == 0.0 && other == cost && other' == 0.0 && own' == CostAfter(cost, was, f);
  }

  /** A position reduced is on the same side as before, or flat. */
  lemma ReducedSides(side: Direction, was: int, quantity: nat)
    requires Signed(side, was) < 0 && quantity <= Abs(was)
    ensures Signed(side, was + Signed(side, quantity)) <= 0
    ensures Signed(side, was + Signed(side, quantity)) == 0 <==> Abs(was + Signed(side, quantity)) == 0
    ensures Abs(was) > 0
  {
  }

  lemma NothingLeft(cost': real, size: real, cost: real)
    requires size > 0.0 && cost' * size == cost * 0.0
    ensures cost' == 0.0
  {
  }

  lemma FlippedIsLawful(f: Fill, was: int, cost: real)
    requires Signed(f.side, was) < 0 && f.quantity > Abs(was)
    ensures var left, price := Abs(was + Signed(f.side, f.quantity)) as real, f.price as real;
            && CostAfter(cost, was, f) == price * left
            && Paid(f) == SignedReal(f.side, price * left + price * Abs(was) as real)
  {
    Crossing(was, f.side, f.quantity);
    hide Abs;
    assert f.quantity == Abs(was + Signed(f.side, f.quantity)) + Abs(was);
  }

  lemma AddedIsLawful(f: Fill, was: int, cost: real)
    requires Signed(f.side, was) >= 0
    ensures CostAfter(cost, was, f) == cost + f.price as real * f.quantity as real
    ensures Paid(f) == SignedReal(f.side, f.price as real * f.quantity as real)
    ensures Signed(f.side, was + Signed(f.side, f.quantity)) >= 0
    ensures was == 0 && f.quantity == 0 ==> CostAfter(cost, was, f) == cost
  {
  }

  lemma ReducedIsLawful(f: Fill, was: int, cash: real, cost: real, realised: real, cost': real, realised': real)
    requires Signed(f.side, was) < 0 && f.quantity <= Abs(was) && cost' == CostAfter(cost, was, f)
    requires realised == cash - SignedReal(f.side, cost) && realised' == cash - Paid(f) - SignedReal(f.side, cost')
    ensures var size, left := Abs(was) as real, Abs(was + Signed(f.side, f.quantity)) as real;
            && cost' * size == cost * left
            && (realised' - realised) * size
               == SignedReal(f.side, (cost - f.price as real * size) * f.quantity as real)
  {
    Crossing(was, f.side, f.quantity);
    ReducedCost(cost, Abs(was), Abs(was + Signed(f.side, f.quantity)));
    var size, quantity, price := Abs(was) as real, f.quantity as real, f.price as real;
    hide Abs;
    assert cost' * size == cost * (size - quantity);
    ShareRealised(cost, cost', size, quantity, price);
  }

  lemma ShareRealised(cost: real, cost': real, size: real, quantity: real, price: real)
    requires cost' * size == cost * (size - quantity)
    ensures (cost - cost' - price * quantity) * size == (cost - price * size) * quantity
  {
    assert (cost - cost' - price * quantity) * size == cost * size - cost' * size - price * quantity * size;
  }

  lemma FlatMarked(mark: real)
    ensures Marked(0, 0.0, 0.0, 0.0, mark)
  {
  }

  lemma AverageTimesSize(price: real, cost: real, size: real)
    requires size != 0.0
    ensures (price - cost / size) * size == price * size - cost
    ensures (cost / size - price) * size == cost - price * size
  {
    assert (cost / size) * size == cost;
  }

  /** A fill against a position flips it exactly when it is larger than the position. */
  lemma Crossing(was: int, side: Direction, quantity: nat)
    requires Signed(side, was) < 0
    ensures var now := was + Signed(side, quantity);
            && (side == BUY <==> was < 0) && was != 0
            && (now * was < 0 <==> quantity > Abs(was))
            && Abs(now) == (if quantity > Abs(was) then quantity - Abs(was) else Abs(was) - quantity)
  {
    var now := was + Signed(side, quantity);
    if quantity <= Abs(was) {
      assert now * was >= 0 by {
        SameSign(now, was);
      }
    } else {
      assert now * was < 0 by {
        SameSign(-now, was);
      }
    }
  }

  lemma SameSign(a: int, b: int)
    requires (a >= 0 && b > 0) || (a <= 0 && b < 0)
    ensures a * b >= 0 && (a != 0 ==> a * b > 0)
    ensures (-a) * b == -(a * b)
  {
  }

  /** Closing at `price` a position that cost `vwap` each: the cost released, the profit
      realised and the cost of what is opened beyond it add up to the money that changed hands. */
  lemma CloseLaw(cost: real, size: nat, vwap: real, price: real, quantity: nat)
    requires size > 0 && vwap == cost / size as real
    ensures quantity <= size ==>
              Cost(vwap - price, quantity) == cost - Cost(vwap, size - quantity) - Cost(price, quantity)
    ensures quantity > size ==>
              Cost(vwap - price, size) == cost + Cost(price, quantity - size) - Cost(price, quantity)
  {
    assert vwap * size as real == cost;
    if quantity <= size {
      assert vwap * (size - quantity) as real == vwap * size as real - vwap * quantity as real;
    } else {
      assert price * (quantity - size) as real == price * quantity as real - price * size as real;
    }
  }

  /** What `Decrease` leaves satisfies the books. */
  lemma DecreaseBooked(f: Fill, was: int, cash: real, cost: real, vwap: real, gained: real, realPnl: real)
    requires Signed(f.side, was) < 0 && vwap == cost / Abs(was) as real
    requires gained == Cost(vwap - f.price as real, Min(f.quantity, Abs(was)))
    requires if f.side == BUY then Booked(was, cash, cost, 0.0, cost, realPnl)
               else Booked(was, cash, cost, cost, 0.0, realPnl)
    ensures var now, size, price := was + Signed(f.side, f.quantity), Abs(was), f.price as real;
            var own := if f.quantity > size then Cost(price, Abs(now)) else 0.0;
            var opposite := if f.quantity > size then 0.0 else Cost(vwap, Abs(now));
            if f.side == BUY then Booked(now, cash - Paid(f), CostAfter(cost, was, f), own, opposite, realPnl + gained)
            else Booked(now, cash - Paid(f), CostAfter(cost, was, f), opposite, own, realPnl - gained)
  {
    Crossing(was, f.side, f.quantity);
    CloseLaw(cost, Abs(was), vwap, f.price as real, f.quantity);
    hide Abs, Cost;
  }
}
