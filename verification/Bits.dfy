/** Shifts, masks, bitwise OR and bit reversal on unbounded naturals.
  *
  * The C sources shift and mask 32-bit words.  Every such operation is written here by
  * recursion on the number of bits, so that the facts about them need no multiplication.
  */
module Bits {
  type byte = x: int | 0 <= x < 256


  /** `x << n` */
  function Shl(x: int, n: nat): (r: int)
    ensures x >= 0 ==> r >= x
  {
    if n == 0 then x else 2 * Shl(x, n - 1)
  }

  /** `x >> n` */
  function Shr(x: nat, n: nat): nat
  {
    if n == 0 then x else Shr(x / 2, n - 1)
  }

  /** `x & ((1 << n) - 1)` */
  function Low(x: nat, n: nat): nat
  {
    if n == 0 then 0 else x % 2 + 2 * Low(x / 2, n - 1)
  }

  /** `1 << n` */
  function Pow2(n: nat): (r: nat)
    ensures r >= 1
  {
    Shl(1, n)
  }

  /** `x | y` */
  function BitOr(x: nat, y: nat): nat
    decreases x + y
  {
    if x == 0 && y == 0 then 0
    else (if x % 2 == 1 || y % 2 == 1 then 1 else 0) + 2 * BitOr(x / 2, y / 2)
  }

  /** The low `n` bits of `x`, in reverse order. */
  function Rev(n: nat, x: nat): nat
  {
    if n == 0 then 0 else Shl(x % 2, n - 1) + Rev(n - 1, x / 2)
  }

  // ----- Shl

  lemma ShlAdd(x: int, y: int, n: nat)
    ensures Shl(x + y, n) == Shl(x, n) + Shl(y, n)
  {
    if n > 0 { ShlAdd(x, y, n - 1); }
  }

  lemma ShlShl(x: int, a: nat, b: nat)
    ensures Shl(Shl(x, a), b) == Shl(x, a + b)
  {
  }

  lemma ShlMono(x: int, y: int, n: nat)
    requires x <= y
    ensures Shl(x, n) <= Shl(y, n)
    ensures x < y ==> Shl(x, n) + Pow2(n) <= Shl(y, n)
  {
  }

  lemma ShlZero(n: nat)
    ensures Shl(0, n) == 0
  {
  }

  lemma Pow2Mono(a: nat, b: nat)
    requires a <= b
    ensures Pow2(a) <= Pow2(b)
    ensures a < b ==> 2 * Pow2(a) <= Pow2(b)
  {
    if a < b { Pow2Mono(a, b - 1); }
  }

  lemma Pow2Add(a: nat, b: nat)
    ensures Shl(Pow2(a), b) == Pow2(a + b)
  {
    ShlShl(1, a, b);
  }

  // ----- Low and Shr

  lemma LowBound(x: nat, n: nat)
    ensures Low(x, n) < Pow2(n)
  {
  }

  lemma Split(x: nat, n: nat)
    ensures x == Low(x, n) + Shl(Shr(x, n), n)
  {
  }

  lemma Unsplit(lo: nat, hi: nat, n: nat)
    requires lo < Pow2(n)
    ensures Shl(hi, n) >= 0
    ensures Low(lo + Shl(hi, n), n) == lo
    ensures Shr(lo + Shl(hi, n), n) == hi
  {
    if n > 0 {
      Unsplit(lo / 2, hi, n - 1);
      assert (lo + Shl(hi, n)) / 2 == lo / 2 + Shl(hi, n - 1);
    }
  }

  lemma LowSmall(x: nat, n: nat)
    requires x < Pow2(n)
    ensures Low(x, n) == x && Shr(x, n) == 0
  {
  }

  lemma ShrShr(x: nat, a: nat, b: nat)
    ensures Shr(Shr(x, a), b) == Shr(x, a + b)
  {
  }

  lemma LowLow(x: nat, a: nat, b: nat)
    requires a <= b
    ensures Low(Low(x, b), a) == Low(x, a)
    ensures Low(Low(x, a), b) == Low(x, a)
  {
  }

  lemma LowSplit(x: nat, a: nat, b: nat)
    ensures Low(x, a + b) == Low(x, a) + Shl(Low(Shr(x, a), b), a)
    ensures Shr(Low(x, a + b), a) == Low(Shr(x, a), b)
  {
  }

  /** `x >> n` is the quotient: the multiple of `1 << n` at or below `x`. */
  lemma ShrQuotient(x: nat, n: nat, q: nat)
    ensures Shr(x, n) == q <==> Shl(q, n) <= x < Shl(q + 1, n)
  {
    Split(x, n);
    LowBound(x, n);
    ShlAdd(q, 1, n);
    if Shl(q, n) <= x < Shl(q + 1, n) {
      Unsplit(x - Shl(q, n), q, n);
    } else if Shr(x, n) == q {
      assert false;
    }
  }

  // ----- Rev

  lemma RevBound(n: nat, x: nat)
    ensures Rev(n, x) < Pow2(n)
  {
    if n > 0 {
      RevBound(n - 1, x / 2);
      ShlMono(x % 2, 1, n - 1);
    }
  }

  lemma RevSplit(a: nat, b: nat, x: nat)
    ensures Rev(a + b, x) == Shl(Rev(a, x), b) + Rev(b, Shr(x, a))
  {
    if a == 0 {
      ShlZero(b);
    } else {
      RevSplit(a - 1, b, x / 2);
      ShlAdd(Shl(x % 2, a - 1), Rev(a - 1, x / 2), b);
      ShlShl(x % 2, a - 1, b);
    }
  }

  lemma {:induction false} RevLow(n: nat, m: nat, x: nat)
    requires n <= m
    ensures Rev(n, Low(x, m)) == Rev(n, x)
  {
    if n > 0 {
      assert Low(x, m) == x % 2 + 2 * Low(x / 2, m - 1);
      RevLow(n - 1, m - 1, x / 2);
    }
  }

  lemma RevZero(n: nat)
    ensures Rev(n, 0) == 0
  {
    if n > 0 { ShlZero(n - 1); }
  }

  /** Reading one bit from the other end. */
  lemma RevTop(n: nat, x: nat)
    ensures Rev(n + 1, x) == 2 * Rev(n, x) + Shr(x, n) % 2
  {
    RevSplit(n, 1, x);
  }

  lemma {:induction false} RevRev(n: nat, x: nat)
    ensures Rev(n, Rev(n, x)) == Low(x, n)
  {
    if n > 0 {
      hide Shl, Shr, Low, Rev;
      // the low bit of Rev(n, x) is bit n-1 of x, the rest is Rev(n-1, x)
      RevTop(n - 1, x);
      RevFirst(n - 1, Rev(n, x));
      RevRev(n - 1, x);
      LowSplit(x, n - 1, 1);
      LowOne(Shr(x, n - 1));
    }
  }

  lemma RevFirst(n: nat, x: nat)
    ensures Rev(n + 1, x) == Shl(x % 2, n) + Rev(n, x / 2)
  {
  }

  lemma LowOne(x: nat)
    ensures Low(x, 1) == x % 2
  {
  }

  /** Reversal is injective on the bits it looks at. */
  lemma RevInjective(n: nat, x: nat, y: nat)
    ensures Rev(n, x) == Rev(n, y) <==> Low(x, n) == Low(y, n)
  {
    RevRev(n, x);
    RevRev(n, y);
    RevLow(n, n, x);
    RevLow(n, n, y);
  }

  /** The first `a` of `a + b` bits are the high part of the reversal. */
  lemma RevPrefix(a: nat, b: nat, x: nat)
    ensures Shr(Rev(a + b, x), b) == Rev(a, x)
    ensures Low(Rev(a + b, x), b) == Rev(b, Shr(x, a))
  {
    RevSplit(a, b, x);
    RevBound(b, Shr(x, a));
    Unsplit(Rev(b, Shr(x, a)), Rev(a, x), b);
  }

  // ----- BitOr

  lemma BitOrZero(x: nat)
    ensures BitOr(x, 0) == x && BitOr(0, x) == x
  {
  }

  /** OR-ing a number with its own low bits changes nothing. */
  lemma BitOrLow(x: nat, n: nat)
    ensures BitOr(x, Low(x, n)) == x
  {
    if n == 0 {
      BitOrZero(x);
    } else if x != 0 {
      BitOrLow(x / 2, n - 1);
      assert Low(x, n) % 2 == x % 2 && Low(x, n) / 2 == Low(x / 2, n - 1);
    } else {
      LowSmall(0, n);
    }
  }

  /** OR-ing in a value shifted above the low `n` bits leaves those bits alone. */
  lemma BitOrShl(x: nat, v: nat, n: nat)
    ensures Shl(v, n) >= 0
    ensures BitOr(x, Shl(v, n)) == Low(x, n) + Shl(BitOr(Shr(x, n), v), n)
  {
    if n > 0 {
      var y := Shl(v, n);
      assert y % 2 == 0 && y / 2 == Shl(v, n - 1);
      if x == 0 && y == 0 {
        ShlZero(n);
        assert v == 0;
        LowSmall(0, n);
      } else {
        BitOrShl(x / 2, v, n - 1);
      }
    }
  }
}
