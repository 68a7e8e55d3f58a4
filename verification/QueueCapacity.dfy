/** Masks, remainders and the rounding of a queue's capacity up to a power of two. */
module QueueCapacities {
  import opened Types
  import opened Words

  // ----- word arithmetic -----

  /** Masking with one less than a power of two is the remainder. */
  lemma {:induction false} MaskIsRemainder(x: nat, k: nat)
    ensures And(x, Pow2(k) - 1) == x % Pow2(k)
    decreases k
  {
    if k == 0 {
    } else {
      MaskIsRemainder(x / 2, k - 1);
      var y := Pow2(k - 1) - 1;
      assert Pow2(k) - 1 == 2 * y + 1 && Pow2(k) == 2 * (y + 1);
      hide Pow2;
      MaskStep(x, y);
    }
  }

  lemma MaskStep(x: nat, y: nat)
    requires And(x / 2, y) == (x / 2) % (y + 1)
    ensures And(x, 2 * y + 1) == x % (2 * (y + 1))
  {
    AndOdd(x, y);
    HalvedRemainder(x, y + 1);
    hide And;
  }

  lemma AndOdd(x: nat, y: nat)
    ensures And(x, 2 * y + 1) == 2 * And(x / 2, y) + x % 2
  {
    assert (2 * y + 1) / 2 == y && (2 * y + 1) % 2 == 1;
  }

  lemma HalvedRemainder(x: nat, h: nat)
    requires h > 0
    ensures x % (2 * h) == 2 * ((x / 2) % h) + x % 2
  {
    var q, r := (x / 2) / h, (x / 2) % h;
    assert x / 2 == q * h + r;
    assert x == q * (2 * h) + (2 * r + x % 2);
    RemainderIs(x, 2 * h, q, 2 * r + x % 2);
  }

  lemma RemainderIs(x: int, d: nat, q: int, r: int)
    requires d > 0 && x == q * d + r && 0 <= r < d
    ensures x % d == r
  {
    var q', r' := x / d, x % d;
    assert x == q' * d + r';
    assert (q - q') * d == r' - r;
    if q > q' {
      assert (q - q') * d >= d by {
        MulAtLeast(q - q', d);
      }
    } else if q < q' {
      assert (q' - q) * d >= d by {
        MulAtLeast(q' - q, d);
      }
    }
  }

  lemma MulAtLeast(a: int, d: int)
    requires a >= 1 && d >= 0
    ensures a * d >= d
  {
    assert a * d == (a - 1) * d + d;
    assert (a - 1) * d >= 0 by {
      NonNegative(a - 1, d);
    }
  }

  lemma NonNegative(a: int, d: int)
    requires a >= 0 && d >= 0
    ensures a * d >= 0
  {
  }

  lemma ShrinkBound(x: nat, d: nat)
    requires d > 0
    ensures 0 <= x / d <= x
  {
    assert x == (x / d) * d + x % d;
    if x / d > 0 {
      assert (x / d) * d == (x / d) * (d - 1) + x / d;
      NonNegative(x / d, d - 1);
    }
  }

  /** The right shift of a word. */
  function Shr(w: nat, s: nat): nat {
    ShrinkBound(w, Pow2(s));
    w / Pow2(s)
  }

  lemma {:induction false} ShiftedBit(w: nat, s: nat, i: nat)
    ensures Bit(Shr(w, s), i) <==> Bit(w, i + s)
    decreases s
  {
    hide Bit;
    if s == 0 {
      assert Pow2(0) == 1;
    } else {
      var h, half := Pow2(s - 1), w / 2;
      assert Pow2(s) == 2 * h;
      hide Pow2;
      HalvedQuotient(w, h);
      ShiftedBit(half, s - 1, i);
      NextBit(w, i + s);
    }
  }

  lemma NextBit(w: nat, i: nat)
    requires i > 0
    ensures Bit(w, i) <==> Bit(w / 2, i - 1)
  {
  }

  lemma HalvedQuotient(w: nat, h: nat)
    requires h > 0
    ensures w / (2 * h) == (w / 2) / h
  {
    var q := (w / 2) / h;
    HalvedRemainder(w, h);
    assert w == q * (2 * h) + w % (2 * h);
    QuotientIs(w, 2 * h, q);
  }

  lemma QuotientIs(w: nat, d: nat, q: int)
    requires d > 0 && w == q * d + w % d
    ensures w / d == q
  {
    assert w == (w / d) * d + w % d;
    assert (w / d - q) * d == 0;
  }

  lemma {:induction false} BitsDetermine(a: nat, b: nat)
    requires forall i: nat :: Bit(a, i) <==> Bit(b, i)
    ensures a == b
    decreases a + b
  {
    assert Bit(a, 0) <==> Bit(b, 0);
    if a == 0 && b == 0 {
    } else {
      forall i: nat
        ensures Bit(a / 2, i) <==> Bit(b / 2, i)
      {
        assert Bit(a, i + 1) <==> Bit(b, i + 1);
      }
      BitsDetermine(a / 2, b / 2);
    }
  }

  lemma {:induction false} HighestBitBounds(n: nat)
    requires n > 0
    ensures Pow2(HighestBit(n)) <= n < Pow2(HighestBit(n) + 1)
    decreases n
  {
    if n <= 1 {
    } else {
      HighestBitBounds(n / 2);
    }
  }

  // ----- capacity -----

  ghost predicate AnyBit(n: nat, i: nat, end: nat) {
    exists j: nat :: i <= j < end && Bit(n, j)
  }

  /** Each bit of `x` says whether `n` has a one there or in the `s - 1` places above. */
  ghost predicate Smeared(x: nat, n: nat, s: nat) {
    forall i: nat :: Bit(x, i) <==> AnyBit(n, i, i + s)
  }

  lemma SmearStep(x: nat, n: nat, s: nat)
    requires Smeared(x, n, s)
    ensures Smeared(Or(x, Shr(x, s)), n, 2 * s)
  {
    hide Bit, Or, Pow2, AnyBit;
    forall i: nat
      ensures Bit(Or(x, Shr(x, s)), i) <==> AnyBit(n, i, i + 2 * s)
    {
      ShiftedBit(x, s, i);
      SmearStepAt(x, Shr(x, s), n, s, i);
    }
  }

  lemma SmearStepAt(x: nat, y: nat, n: nat, s: nat, i: nat)
    requires Smeared(x, n, s) && (Bit(y, i) <==> Bit(x, i + s))
    ensures Bit(Or(x, y), i) <==> AnyBit(n, i, i + 2 * s)
  {
    hide Bit, Or, AnyBit;
    BitOfOr(x, y, i);
    SmearedAt(x, n, s, i);
    SmearedAt(x, n, s, i + s);
    hide Smeared;
    AnyBitSplits(n, i, i + s, i + 2 * s);
  }

  lemma SmearedAt(x: nat, n: nat, s: nat, i: nat)
    requires Smeared(x, n, s)
    ensures Bit(x, i) <==> AnyBit(n, i, i + s)
  {
    hide Bit, AnyBit;
  }

  lemma AnyBitSplits(n: nat, i: nat, mid: nat, end: nat)
    requires i <= mid <= end
    ensures AnyBit(n, i, end) <==> AnyBit(n, i, mid) || AnyBit(n, mid, end)
  {
    hide Bit;
  }

  /** A word smeared over 64 places is all ones up to its highest one. */
  lemma SmearedIsOnes(x: nat, n: nat)
    requires Smeared(x, n, 64) && 0 < n < WORD_MODULUS
    ensures x == Pow2(HighestBit(n) + 1) - 1
  {
    var h := HighestBit(n);
    HighestBitBounds(n);
    Pow2OfWord();
    if h >= 64 {
      Pow2Monotone(64, h);
    }
    var ones := Pow2(h + 1) - 1;
    forall i: nat
      ensures Bit(x, i) <==> Bit(ones, i)
    {
      assert Bit(x, i) <==> AnyBit(n, i, i + 64);
      if i <= h {
        ZeroHasNoBit(i);
        BitOfComplement(0, h + 1, i);
        assert i <= h < i + 64 && Bit(n, h);
      } else {
        NoBitsAbove(ones, h + 1, i);
      }
    }
    BitsDetermine(x, ones);
  }

  lemma SmearedOnce(n: nat)
    ensures Smeared(n, n, 1)
  {
  }

  lemma SmearedZero(x: nat)
    requires Smeared(x, 0, 64)
    ensures x == 0
  {
    forall i: nat
      ensures Bit(x, i) <==> Bit(0, i)
    {
      ZeroHasNoBits();
      assert Bit(x, i) <==> AnyBit(0, i, i + 64);
    }
    BitsDetermine(x, 0);
  }

  lemma ShiftAmounts()
    ensures Pow2(1) == 2 && Pow2(2) == 4 && Pow2(4) == 16 && Pow2(8) == 256
    ensures Pow2(16) == 0x1_0000 && Pow2(32) == 0x1_0000_0000 && Pow2(63) == 0x8000_0000_0000_0000
  {
    hide Pow2;
    ShiftPowers();
    Pow2OfWord();
    Pow2Add(1, 63);
  }

  /** The least power of two not below `num`; it does not fit a word when `num` is above
      2^63, and the increment then wraps round to 0. */
  method RoundUpToPowerOf2(num: Word) returns (r: Word, ghost k: nat)
    ensures num > 0x8000_0000_0000_0000 ==> r == 0
    ensures num <= 0x8000_0000_0000_0000 ==>
              k <= 63 && r == Pow2(k) && num <= r && (k > 0 ==> Pow2(k - 1) < num)
  {
    hide Bit, Or, And, Pow2, Smeared, HighestBit;
    ShiftAmounts();
    if num == 0 {
      PowerZero();
      return 1, 0;
    }
    ghost var n := num - 1;
    var x := num - 1;
    SmearedOnce(n);
    x := SmearWord(x, n, 1, 2);
    x := SmearWord(x, n, 2, 4);
    x := SmearWord(x, n, 4, 16);
    x := SmearWord(x, n, 8, 256);
    x := SmearWord(x, n, 16, 0x1_0000);
    x := SmearWord(x, n, 32, 0x1_0000_0000);
    k := AfterSmear(x, n);
    r := (x + 1) % 0x1_0000_0000_0000_0000;
  }

  lemma PowerZero()
    ensures Pow2(0) == 1
  {
  }

  /** `x |= x >> s`. */
  method SmearWord(x: Word, ghost n: nat, ghost s: nat, divisor: nat) returns (r: Word)
    requires Smeared(x, n, s) && divisor == Pow2(s)
    ensures Smeared(r, n, 2 * s)
  {
    hide Bit, Smeared, Pow2;
    SmearStep(x, n, s);
    Pow2OfWord();
    ShrinkBound(x, divisor);
    var shifted := x / divisor;
    OrBound(x, shifted, 64);
    r := Or(x, shifted);
  }

  lemma AfterSmear(x: Word, n: nat) returns (k: nat)
    requires Smeared(x, n, 64) && n < WORD_MODULUS
    ensures x == Pow2(k) - 1 && k <= 64 && n < Pow2(k) && (k > 0 ==> Pow2(k - 1) <= n)
    ensures n < 0x8000_0000_0000_0000 <==> k <= 63
    ensures k == 64 <==> x == WORD_MODULUS - 1
  {
    ShiftAmounts();
    Pow2OfWord();
    hide Smeared, Bit;
    if n == 0 {
      SmearedZero(x);
      k := 0;
      PowerZero();
    } else {
      SmearedIsOnes(x, n);
      HighestBitBounds(n);
      k := HighestBit(n) + 1;
      hide Pow2, HighestBit;
      if k > 64 {
        Pow2Monotone(64, k - 1);
      }
      if k < 64 {
        Pow2Monotone(k, 63);
      } else {
        Pow2Monotone(63, k - 1);
      }
    }
  }
}
