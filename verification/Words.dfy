/** Unsigned 64-bit words as integers below 2^64, with the bit operators defined
    digit by digit so that facts about them are proved by induction. */
module Words {

  const WORD_BITS: nat := 64
  const WORD_MODULUS: nat := 0x1_0000_0000_0000_0000

  type Word = w: int | 0 <= w < 0x1_0000_0000_0000_0000

  function Pow2(n: nat): (p: nat)
    ensures p > 0
  {
    if n == 0 then 1 else 2 * Pow2(n - 1)
  }

  /** Digit `i` of `w`. */
  predicate Bit(w: nat, i: nat)
    decreases i
  {
    if i == 0 then w % 2 == 1 else Bit(w / 2, i - 1)
  }

  function And(a: nat, b: nat): nat {
    if a == 0 || b == 0 then 0
    else (if a % 2 == 1 && b % 2 == 1 then 1 else 0) + 2 * And(a / 2, b / 2)
  }

  function Or(a: nat, b: nat): nat
    decreases a + b
  {
    if a == 0 then b
    else if b == 0 then a
    else (if a % 2 == 1 || b % 2 == 1 then 1 else 0) + 2 * Or(a / 2, b / 2)
  }

  /** The 64-bit complement. */
  function Not(w: Word): Word {
    WORD_MODULUS - 1 - w
  }

  /** Position of the lowest one: std::countr_zero of a non-zero word. */
  function LowestBit(w: nat): (i: nat)
    requires w > 0
    ensures Bit(w, i)
    ensures forall j: nat :: j < i ==> !Bit(w, j)
  {
    if w % 2 == 1 then 0 else 1 + LowestBit(w / 2)
  }

  /** Position of the highest one: 63 - std::countl_zero of a non-zero word. */
  function HighestBit(w: nat): (i: nat)
    requires w > 0
    ensures Bit(w, i)
    ensures forall j: nat :: j > i ==> !Bit(w, j)
  {
    if w == 1 then ZeroHasNoBits(); 0 else 1 + HighestBit(w / 2)
  }

  lemma {:induction false} ZeroHasNoBit(i: nat)
    ensures !Bit(0, i)
  {
    if i == 0 {
    } else {
      ZeroHasNoBit(i - 1);
    }
  }

  lemma ZeroHasNoBits()
    ensures forall i: nat :: !Bit(0, i)
  {
    forall i: nat {
      ZeroHasNoBit(i);
    }
  }

  /** `2 * w + d` is `w` with the digit `d` appended. */
  lemma AppendedDigit(w: nat, d: nat)
    requires d <= 1
    ensures (d + 2 * w) / 2 == w && (d + 2 * w) % 2 == d
  {
  }

  lemma AndHalves(a: nat, b: nat)
    requires a > 0 && b > 0
    ensures And(a, b) / 2 == And(a / 2, b / 2)
    ensures And(a, b) % 2 == 1 <==> a % 2 == 1 && b % 2 == 1
  {
    AppendedDigit(And(a / 2, b / 2), if a % 2 == 1 && b % 2 == 1 then 1 else 0);
  }

  lemma OrHalves(a: nat, b: nat)
    requires a > 0 && b > 0
    ensures Or(a, b) / 2 == Or(a / 2, b / 2)
    ensures Or(a, b) % 2 == 1 <==> a % 2 == 1 || b % 2 == 1
  {
    AppendedDigit(Or(a / 2, b / 2), if a % 2 == 1 || b % 2 == 1 then 1 else 0);
  }

  lemma {:induction false} BitOfAnd(a: nat, b: nat, i: nat)
    ensures Bit(And(a, b), i) <==> Bit(a, i) && Bit(b, i)
    decreases i
  {
    if a == 0 || b == 0 {
      ZeroHasNoBit(i);
    } else {
      AndHalves(a, b);
      hide And;
      if i == 0 {
      } else {
        BitOfAnd(a / 2, b / 2, i - 1);
      }
    }
  }

  lemma {:induction false} BitOfOr(a: nat, b: nat, i: nat)
    ensures Bit(Or(a, b), i) <==> Bit(a, i) || Bit(b, i)
    decreases i
  {
    if a == 0 || b == 0 {
      ZeroHasNoBit(i);
    } else {
      OrHalves(a, b);
      hide Or;
      if i == 0 {
      } else {
        BitOfOr(a / 2, b / 2, i - 1);
      }
    }
  }

  lemma {:induction false} BitOfPow2(n: nat, i: nat)
    ensures Bit(Pow2(n), i) <==> i == n
  {
    if i == 0 {
    } else if n == 0 {
      ZeroHasNoBit(i - 1);
    } else {
      BitOfPow2(n - 1, i - 1);
    }
  }

  lemma HalfComplement(h: nat, w: nat)
    requires w < 2 * h
    ensures (2 * h - 1 - w) / 2 == h - 1 - w / 2 && w / 2 < h
  {
  }

  lemma {:induction false} BitOfComplement(w: nat, n: nat, i: nat)
    requires w < Pow2(n) && i < n
    ensures Bit(Pow2(n) - 1 - w, i) <==> !Bit(w, i)
  {
    if i == 0 {
    } else {
      assert Pow2(n) == 2 * Pow2(n - 1);
      hide Pow2;
      HalfComplement(Pow2(n - 1), w);
      BitOfComplement(w / 2, n - 1, i - 1);
    }
  }

  lemma {:induction false} NoBitsAbove(w: nat, n: nat, i: nat)
    requires w < Pow2(n) && i >= n
    ensures !Bit(w, i)
  {
    if n == 0 {
      ZeroHasNoBit(i);
    } else {
      NoBitsAbove(w / 2, n - 1, i - 1);
    }
  }

  lemma {:induction false} OrBound(a: nat, b: nat, n: nat)
    requires a < Pow2(n) && b < Pow2(n)
    ensures Or(a, b) < Pow2(n)
  {
    if a == 0 || b == 0 {
    } else {
      OrBound(a / 2, b / 2, n - 1);
    }
  }

  lemma {:induction false} AndBound(a: nat, b: nat)
    ensures And(a, b) <= a
  {
    if a == 0 || b == 0 {
    } else {
      AndBound(a / 2, b / 2);
    }
  }

  lemma {:induction false} Pow2Add(a: nat, b: nat)
    ensures Pow2(a + b) == Pow2(a) * Pow2(b)
  {
    if a == 0 {
    } else {
      Pow2Add(a - 1, b);
      assert Pow2(a) == 2 * Pow2(a - 1) && Pow2(a + b) == 2 * Pow2(a - 1 + b);
      hide Pow2;
      DoubledProduct(Pow2(a - 1), Pow2(b));
    }
  }

  lemma DoubledProduct(x: int, y: int)
    ensures 2 * (x * y) == (2 * x) * y
  {
  }

  /** The powers of two a word is shifted by. */
  lemma ShiftPowers()
    ensures Pow2(1) == 2 && Pow2(2) == 4 && Pow2(4) == 16 && Pow2(8) == 256
    ensures Pow2(16) == 0x1_0000 && Pow2(32) == 0x1_0000_0000
  {
    assert Pow2(1) == 2;
    hide Pow2;
    Pow2Add(1, 1);
    Pow2Add(2, 2);
    Pow2Add(4, 4);
    Pow2Add(8, 8);
    Pow2Add(16, 16);
  }

  lemma Pow2OfWord()
    ensures Pow2(64) == WORD_MODULUS
  {
    hide Pow2;
    ShiftPowers();
    Pow2Add(32, 32);
  }

  lemma {:induction false} Pow2Monotone(a: nat, b: nat)
    requires a <= b
    ensures Pow2(a) <= Pow2(b)
  {
    if a >= b {
    } else {
      Pow2Monotone(a, b - 1);
    }
  }

  /** The word with the single digit `i` set: std::uint64_t{1} << i. */
  function Mask(i: nat): (m: Word)
    requires i < WORD_BITS
    ensures m == Pow2(i)
  {
    Pow2OfWord();
    Pow2Monotone(i + 1, 64);
    Pow2(i)
  }

  function SetBit(w: Word, i: nat): (r: Word)
    requires i < WORD_BITS
    ensures forall j: nat :: Bit(r, j) <==> j == i || Bit(w, j)
  {
    Pow2OfWord();
    OrBound(w, Mask(i), 64);
    assert forall j: nat :: Bit(Or(w, Mask(i)), j) <==> j == i || Bit(w, j) by {
      forall j: nat
        ensures Bit(Or(w, Mask(i)), j) <==> j == i || Bit(w, j)
      {
        BitOfOr(w, Mask(i), j);
        BitOfPow2(i, j);
      }
    }
    Or(w, Mask(i))
  }

  function ClearBit(w: Word, i: nat): (r: Word)
    requires i < WORD_BITS
    ensures forall j: nat :: Bit(r, j) <==> j != i && Bit(w, j)
  {
    Pow2OfWord();
    AndBound(w, Not(Mask(i)));
    assert forall j: nat :: Bit(And(w, Not(Mask(i))), j) <==> j != i && Bit(w, j) by {
      forall j: nat
        ensures Bit(And(w, Not(Mask(i))), j) <==> j != i && Bit(w, j)
      {
        BitOfAnd(w, Not(Mask(i)), j);
        if j < 64 {
          BitOfComplement(Mask(i), 64, j);
          BitOfPow2(i, j);
        } else {
          NoBitsAbove(w, 64, j);
        }
      }
    }
    And(w, Not(Mask(i)))
  }
}
