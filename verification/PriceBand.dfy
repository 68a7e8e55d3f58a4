/** The tick grid of a symbol: price(tick) == basePrice + tick * tickSize. */
module PriceBands {
  import opened Types

  const TICK_COUNT: nat := MAX_PRICE_LEVELS
  const INVALID_TICK: int := -1
  const PRICE_MAX: int := 0x7FFF_FFFF_FFFF_FFFF

  /** Conversion of an integer to the 32-bit signed `Tick`, which keeps its low 32 bits. */
  function NarrowToTick(x: int): (t: int)
    ensures -0x8000_0000 <= t < 0x8000_0000
    ensures (x - t) % 0x1_0000_0000 == 0
    ensures -0x8000_0000 <= x < 0x8000_0000 ==> t == x
  {
    (x + 0x8000_0000) % 0x1_0000_0000 - 0x8000_0000
  }

  /** Integer division that truncates toward zero. */
  function Truncate(a: int, b: int): int
    requires b > 0
  {
    if a >= 0 then a / b else -(-a / b)
  }

  datatype PriceBand = PriceBand(basePrice: int, tickSize: int) {

    predicate IsValid() {
      tickSize > 0 && basePrice >= 0 && Truncate(PRICE_MAX - basePrice, tickSize) > TICK_COUNT
    }

    function ToTick(price: int): int
      requires IsValid()
    {
      NarrowToTick(Truncate(price - basePrice, tickSize))
    }

    function ToPrice(tick: int): int {
      basePrice + tick * tickSize
    }

    /** The prices `BookCore.Add` demands: inside the band and on the grid. */
    predicate InBand(price: int)
      requires IsValid()
    {
      && basePrice <= price
      && (price - basePrice) % tickSize == 0
      && (price - basePrice) / tickSize < TICK_COUNT
    }
  }

  const DEFAULT_PRICE_BAND := PriceBand(0, 1)

  lemma TickOfPrice(band: PriceBand, tick: int)
    requires band.IsValid() && 0 <= tick < TICK_COUNT
    ensures band.InBand(band.ToPrice(tick))
    ensures band.ToTick(band.ToPrice(tick)) == tick
    ensures 0 <= band.ToPrice(tick) <= PRICE_MAX
  {
    DivMod(tick, band.tickSize);
    assert tick * band.tickSize >= 0;
    BandTopFits(band.tickSize, PRICE_MAX - band.basePrice, tick);
  }

  lemma BandTopFits(step: int, room: int, tick: int)
    requires step > 0 && 0 <= tick < TICK_COUNT && Truncate(room, step) > TICK_COUNT
    ensures tick * step <= room
  {
    var q := room / step;
    assert q * step <= room;
    MulNonNegative(q - tick, step);
    assert q * step == tick * step + (q - tick) * step;
  }

  lemma PriceOfTick(band: PriceBand, price: int)
    requires band.IsValid() && band.InBand(price)
    ensures 0 <= band.ToTick(price) < TICK_COUNT
    ensures band.ToPrice(band.ToTick(price)) == price
  {
    var q := (price - band.basePrice) / band.tickSize;
    assert price - band.basePrice == q * band.tickSize;
    assert q >= 0;
  }

  /** Different ticks have different prices, in the same order. */
  lemma PriceOrder(band: PriceBand, a: int, b: int)
    requires band.IsValid()
    ensures a < b <==> band.ToPrice(a) < band.ToPrice(b)
    ensures a == b <==> band.ToPrice(a) == band.ToPrice(b)
  {
    if a < b {
      assert (b - a) * band.tickSize > 0;
    } else if b < a {
      assert (a - b) * band.tickSize > 0;
    }
  }

  lemma MulNonNegative(a: int, b: int)
    requires a >= 0 && b >= 0
    ensures a * b >= 0
  {
  }

  lemma MultipleNotSmaller(a: int, d: int)
    requires d > 0 && a != 0
    ensures a * d >= d || a * d <= -d
  {
    if a > 0 {
      MulNonNegative(a - 1, d);
      assert a * d == (a - 1) * d + d;
    } else {
      MulNonNegative(-1 - a, d);
      assert a * d == -((-1 - a) * d) - d;
    }
  }

  lemma DivMod(q: int, d: int)
    requires d > 0
    ensures (q * d) / d == q && (q * d) % d == 0
  {
    var x := q * d;
    var a := q - x / d;
    assert a * d == x % d;
    if a != 0 {
      MultipleNotSmaller(a, d);
    }
  }
}
