/**
 * Unsigned machine words as natural numbers, and their bits.
 *
 * A w-bit unsigned word is modelled as a natural number below 2^w. Bit i of
 * a word is the i-th binary digit of the number, and the operators of C on
 * unsigned words (`&`, `|`, `^`, `<<`, `>>`) are defined digit by digit, so
 * that every statement about them reduces to a statement about single bits.
 * `BitsEqual` turns agreement on every bit back into equality of words.
 */
module Bits {

  /** 2 to the power n. */
  function Pow2(n: nat): (p: nat)
    ensures p >= 1
  {
    if n == 0 then 1 else 2 * Pow2(n - 1)
  }

  /** Bit i of w: its i-th binary digit, counting from the least significant. */
  predicate Bit(w: nat, i: nat)
  {
    if i == 0 then w % 2 == 1 else Bit(w / 2, i - 1)
  }

  /** The number whose binary digits are those of a or of c (C's `|`). */
  function Or(a: nat, c: nat): (r: nat)
    decreases a + c
  {
    if a == 0 && c == 0 then 0
    else 2 * Or(a / 2, c / 2) + (if a % 2 == 1 || c % 2 == 1 then 1 else 0)
  }

  /** The number whose binary digits are those of both a and c (C's `&`). */
  function And(a: nat, c: nat): (r: nat)
    decreases a + c
  {
    if a == 0 && c == 0 then 0
    else 2 * And(a / 2, c / 2) + (if a % 2 == 1 && c % 2 == 1 then 1 else 0)
  }

  /** The number whose binary digits are those of exactly one of a and c (C's `^`). */
  function Xor(a: nat, c: nat): (r: nat)
    decreases a + c
  {
    if a == 0 && c == 0 then 0
    else 2 * Xor(a / 2, c / 2) + (if (a % 2 == 1) != (c % 2 == 1) then 1 else 0)
  }

  /** w with its digits moved up by n places, nothing dropped. */
  function ShiftUp(w: nat, n: nat): (r: nat)
  {
    if n == 0 then w else 2 * ShiftUp(w, n - 1)
  }

  /** w with its lowest n digits dropped (C's `>>` on unsigned words). */
  function ShiftRight(w: nat, n: nat): (r: nat)
  {
    if n == 0 then w else ShiftRight(w / 2, n - 1)
  }

  /** The lowest n digits of w: the value a word of n bits keeps. */
  function Low(w: nat, n: nat): (r: nat)
  {
    if n == 0 then 0 else 2 * Low(w / 2, n - 1) + w % 2
  }

  /** C's `<<` on an unsigned word of `width` bits: shift, then wrap around. */
  function ShiftLeft(w: nat, n: nat, width: nat): (r: nat)
  {
    Low(ShiftUp(w, n), width)
  }

  /** The number with its lowest n digits set: 2^n - 1. */
  function Ones(n: nat): (r: nat)
  {
    Pow2(n) - 1
  }

  /** The number whose binary digits, from the least significant, are b. */
  function FromBits(b: seq<bool>): (r: nat)
  {
    if |b| == 0 then 0 else (if b[0] then 1 else 0) + 2 * FromBits(b[1..])
  }

  // ---------------------------------------------------------------------
  // Bits of the operators
  // ---------------------------------------------------------------------

  lemma {:induction false} BitZero(i: nat)
    ensures !Bit(0, i)
  {
    if i > 0 {
      BitZero(i - 1);
    }
  }

  lemma {:induction false} BitOr(a: nat, c: nat, i: nat)
    ensures Bit(Or(a, c), i) == (Bit(a, i) || Bit(c, i))
  {
    if a == 0 && c == 0 {
      BitZero(i);
    } else if i > 0 {
      BitOr(a / 2, c / 2, i - 1);
    }
  }

  lemma {:induction false} BitAnd(a: nat, c: nat, i: nat)
    ensures Bit(And(a, c), i) == (Bit(a, i) && Bit(c, i))
  {
    if a == 0 && c == 0 {
      BitZero(i);
    } else if i > 0 {
      BitAnd(a / 2, c / 2, i - 1);
    }
  }

  lemma {:induction false} BitXor(a: nat, c: nat, i: nat)
    ensures Bit(Xor(a, c), i) == (Bit(a, i) != Bit(c, i))
  {
    if a == 0 && c == 0 {
      BitZero(i);
    } else if i > 0 {
      BitXor(a / 2, c / 2, i - 1);
    }
  }

  lemma {:induction false} BitPow2(k: nat, i: nat)
    ensures Bit(Pow2(k), i) == (i == k)
  {
    if k == 0 {
      if i > 0 {
        BitZero(i - 1);
      }
    } else if i > 0 {
      BitPow2(k - 1, i - 1);
    }
  }

  lemma {:induction false} BitOnes(n: nat, i: nat)
    ensures Bit(Ones(n), i) == (i < n)
  {
    if n == 0 {
      BitZero(i);
    } else {
      assert Ones(n) / 2 == Ones(n - 1);
      if i > 0 {
        BitOnes(n - 1, i - 1);
      }
    }
  }

  lemma {:induction false} BitShiftUp(w: nat, n: nat, i: nat)
    ensures Bit(ShiftUp(w, n), i) == (n <= i && Bit(w, i - n))
  {
    if n > 0 && i > 0 {
      BitShiftUp(w, n - 1, i - 1);
    }
  }

  lemma {:induction false} BitShiftRight(w: nat, n: nat, i: nat)
    ensures Bit(ShiftRight(w, n), i) == Bit(w, i + n)
  {
    if n > 0 {
      BitShiftRight(w / 2, n - 1, i);
      BitHalf(w, i + n - 1);
    }
  }

  lemma BitHalf(w: nat, i: nat)
    ensures Bit(w / 2, i) == Bit(w, i + 1)
  {
  }

  lemma {:induction false} BitLow(w: nat, n: nat, i: nat)
    ensures Bit(Low(w, n), i) == (i < n && Bit(w, i))
  {
    if n == 0 {
      BitZero(i);
    } else if i > 0 {
      BitLow(w / 2, n - 1, i - 1);
    }
  }

  lemma BitShiftLeft(w: nat, n: nat, width: nat, i: nat)
    ensures Bit(ShiftLeft(w, n, width), i) == (n <= i < width && Bit(w, i - n))
  {
    BitLow(ShiftUp(w, n), width, i);
    BitShiftUp(w, n, i);
  }

  lemma {:induction false} BitFromBits(b: seq<bool>, i: nat)
    ensures Bit(FromBits(b), i) == (i < |b| && b[i])
  {
    if |b| == 0 {
      BitZero(i);
    } else if i > 0 {
      BitFromBits(b[1..], i - 1);
    }
  }

  // ---------------------------------------------------------------------
  // Bounds and equality from bits
  // ---------------------------------------------------------------------

  /** A number below 2^n has no set bit at n or above. */
  lemma {:induction false} BitAbove(w: nat, n: nat, i: nat)
    requires w < Pow2(n) && n <= i
    ensures !Bit(w, i)
  {
    if i == 0 {
    } else if n == 0 {
      BitZero(i);
    } else {
      BitAbove(w / 2, n - 1, i - 1);
    }
  }

  /** A number with no set bit at n or above is below 2^n. */
  lemma {:induction false} BoundFromBits(w: nat, n: nat)
    requires forall i: nat :: n <= i ==> !Bit(w, i)
    ensures w < Pow2(n)
    decreases w
  {
    if w == 0 {
    } else if n == 0 {
      assert w % 2 == 0 by { assert !Bit(w, 0); }
      forall i: nat ensures !Bit(w / 2, i) {
        assert !Bit(w, i + 1);
      }
      BoundFromBits(w / 2, 0);
    } else {
      forall i: nat | n - 1 <= i ensures !Bit(w / 2, i) {
        assert !Bit(w, i + 1);
      }
      BoundFromBits(w / 2, n - 1);
    }
  }

  /** Two numbers with the same bits are the same number. */
  lemma {:induction false} BitsEqual(a: nat, c: nat)
    requires forall i: nat :: Bit(a, i) == Bit(c, i)
    ensures a == c
    decreases a + c
  {
    if a != 0 || c != 0 {
      assert a % 2 == c % 2 by { assert Bit(a, 0) == Bit(c, 0); }
      forall i: nat ensures Bit(a / 2, i) == Bit(c / 2, i) {
        assert Bit(a, i + 1) == Bit(c, i + 1);
      }
      BitsEqual(a / 2, c / 2);
    }
  }

  /** Two numbers below 2^n with the same low n bits are the same number. */
  lemma BitsEqualBelow(a: nat, c: nat, n: nat)
    requires a < Pow2(n) && c < Pow2(n)
    requires forall i: nat :: i < n ==> Bit(a, i) == Bit(c, i)
    ensures a == c
  {
    forall i: nat ensures Bit(a, i) == Bit(c, i) {
      if n <= i {
        BitAbove(a, n, i);
        BitAbove(c, n, i);
      }
    }
    BitsEqual(a, c);
  }

  lemma {:induction false} Pow2Monotone(a: nat, b: nat)
    requires a <= b
    ensures Pow2(a) <= Pow2(b)
  {
    if a < b {
      Pow2Monotone(a, b - 1);
    }
  }

  lemma {:induction false} Pow2Add(a: nat, c: nat)
    ensures Pow2(a + c) == Pow2(a) * Pow2(c)
  {
    if c > 0 {
      Pow2Add(a, c - 1);
    }
  }

  lemma SmallPowersOfTwo()
    ensures Pow2(5) == 0x20 && Ones(5) == 0x1F
  {
  }

  lemma FromBitsBelow(b: seq<bool>)
    ensures FromBits(b) < Pow2(|b|)
  {
    forall i: nat | |b| <= i ensures !Bit(FromBits(b), i) {
      BitFromBits(b, i);
    }
    BoundFromBits(FromBits(b), |b|);
  }

  lemma OrBelow(a: nat, c: nat, n: nat)
    requires a < Pow2(n) && c < Pow2(n)
    ensures Or(a, c) < Pow2(n)
  {
    forall i: nat | n <= i ensures !Bit(Or(a, c), i) {
      BitOr(a, c, i);
      BitAbove(a, n, i);
      BitAbove(c, n, i);
    }
    BoundFromBits(Or(a, c), n);
  }

  lemma XorBelow(a: nat, c: nat, n: nat)
    requires a < Pow2(n) && c < Pow2(n)
    ensures Xor(a, c) < Pow2(n)
  {
    forall i: nat | n <= i ensures !Bit(Xor(a, c), i) {
      BitXor(a, c, i);
      BitAbove(a, n, i);
      BitAbove(c, n, i);
    }
    BoundFromBits(Xor(a, c), n);
  }

  lemma AndBelow(a: nat, c: nat, n: nat)
    requires c < Pow2(n)
    ensures And(a, c) < Pow2(n)
  {
    forall i: nat | n <= i ensures !Bit(And(a, c), i) {
      BitAnd(a, c, i);
      BitAbove(c, n, i);
    }
    BoundFromBits(And(a, c), n);
  }

  // ---------------------------------------------------------------------
  // The digit-wise definitions agree with arithmetic
  // ---------------------------------------------------------------------

  lemma {:induction false} ShiftUpIsProduct(w: nat, n: nat)
    ensures ShiftUp(w, n) == w * Pow2(n)
  {
    if n > 0 {
      ShiftUpIsProduct(w, n - 1);
      assert w * Pow2(n) == 2 * (w * Pow2(n - 1));
    }
  }

  lemma {:induction false} LowIsBelow(w: nat, n: nat)
    ensures Low(w, n) < Pow2(n)
    ensures w < Pow2(n) ==> Low(w, n) == w
  {
    if n > 0 {
      LowIsBelow(w / 2, n - 1);
    }
  }

  /** A word below 2^k shifted left by n loses nothing when n + k <= width. */
  lemma ShiftLeftNoWrap(w: nat, n: nat, k: nat, width: nat)
    requires w < Pow2(k) && n + k <= width
    ensures ShiftLeft(w, n, width) == w * Pow2(n)
  {
    ShiftUpIsProduct(w, n);
    Pow2Add(k, n);
    MulBelow(w, Pow2(k), Pow2(n));
    Pow2Monotone(k + n, width);
    LowIsBelow(ShiftUp(w, n), width);
  }

  lemma MulBelow(a: nat, c: nat, m: nat)
    requires a < c && m >= 1
    ensures a * m < c * m
  {
  }

  /** `>>` by n is division by 2^n. */
  lemma {:induction false} ShiftRightIsQuotient(w: nat, n: nat)
    ensures ShiftRight(w, n) == w / Pow2(n)
  {
    if n > 0 {
      ShiftRightIsQuotient(w / 2, n - 1);
      QuotientOfDouble(w, Pow2(n - 1));
    }
  }

  /** Keeping the lowest n digits is the remainder modulo 2^n. */
  lemma {:induction false} LowIsRemainder(w: nat, n: nat)
    ensures Low(w, n) == w % Pow2(n)
  {
    if n > 0 {
      LowIsRemainder(w / 2, n - 1);
      RemainderOfDouble(w, Pow2(n - 1));
    }
  }

  /** Masking with 2^n - 1 keeps the lowest n digits. */
  lemma AndOnesIsLow(w: nat, n: nat)
    ensures And(w, Ones(n)) == Low(w, n)
  {
    forall i: nat ensures Bit(And(w, Ones(n)), i) == Bit(Low(w, n), i) {
      BitAnd(w, Ones(n), i);
      BitOnes(n, i);
      BitLow(w, n, i);
    }
    BitsEqual(And(w, Ones(n)), Low(w, n));
  }

  lemma QuotientOfDouble(w: nat, p: nat)
    requires p >= 1
    ensures w / (2 * p) == (w / 2) / p
  {
    var q, r := (w / 2) / p, (w / 2) % p;
    assert w / 2 == p * q + r;
    assert w == (2 * p) * q + (2 * r + w % 2);
    DivUnique(w, 2 * p, q, 2 * r + w % 2);
  }

  lemma RemainderOfDouble(w: nat, p: nat)
    requires p >= 1
    ensures w % (2 * p) == 2 * ((w / 2) % p) + w % 2
  {
    var q, r := (w / 2) / p, (w / 2) % p;
    assert w / 2 == p * q + r;
    assert w == (2 * p) * q + (2 * r + w % 2);
    DivUnique(w, 2 * p, q, 2 * r + w % 2);
  }

  /** Quotient and remainder are the only pair that rebuilds w. */
  lemma DivUnique(w: nat, d: nat, q: nat, r: nat)
    requires r < d && w == d * q + r
    ensures w / d == q && w % d == r
  {
    var q0, r0 := w / d, w % d;
    assert d * (q - q0) == r0 - r;
    if q > q0 {
      MulAtLeast(d, q - q0);
    } else if q < q0 {
      assert d * (q0 - q) == r - r0;
      MulAtLeast(d, q0 - q);
    }
  }

  lemma MulAtLeast(d: nat, k: int)
    requires k >= 1
    ensures d * k >= d
  {
  }
}
