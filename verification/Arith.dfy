/**
 * Shifts, masks and bit reversal of unbounded naturals, all by repeated
 * halving, so that no proof needs multiplication or division by a variable.
 */
module Arith {

  /** 1 << n */
  function Pow2(n: nat): (r: nat)
    ensures r >= 1
  {
    if n == 0 then 1 else 2 * Pow2(n - 1)
  }

  /** x << n */
  function Shl(x: nat, n: nat): nat {
    if n == 0 then x else 2 * Shl(x, n - 1)
  }

  /** x >> n */
  function Shr(x: nat, n: nat): nat {
    if n == 0 then x else Shr(x / 2, n - 1)
  }

  /** x & ((1 << n) - 1) */
  function Low(x: nat, n: nat): (r: nat)
    ensures r < Pow2(n)
    ensures r <= x
  {
    if n == 0 then 0 else x % 2 + 2 * Low(x / 2, n - 1)
  }

  /** The n lowest bits of x in reverse order. */
  function Rev(x: nat, n: nat): (r: nat)
    ensures r < Pow2(n)
  {
    if n == 0 then 0 else (if x % 2 == 1 then Pow2(n - 1) else 0) + Rev(x / 2, n - 1)
  }

  lemma Pow2Zero()
    ensures Pow2(0) == 1
  {
  }

  lemma Pow2Pos(n: nat)
    ensures Pow2(n) >= 1
  {
  }

  lemma ShlNone(x: nat)
    ensures Shl(x, 0) == x
  {
  }

  lemma ShlTwice(x: nat)
    ensures Shl(x, 1) == 2 * x
  {
    assert Shl(x, 1) == 2 * Shl(x, 0);
  }

  lemma ShlThree(x: nat)
    ensures Shl(x, 3) == 8 * x
  {
    assert Shl(x, 3) == 2 * Shl(x, 2) && Shl(x, 2) == 2 * Shl(x, 1) && Shl(x, 1) == 2 * Shl(x, 0);
  }

  lemma ShrNone(x: nat)
    ensures Shr(x, 0) == x
  {
  }

  lemma LowNone(x: nat)
    ensures Low(x, 0) == 0
  {
  }

  lemma LowBound(x: nat, n: nat)
    ensures Low(x, n) < Pow2(n)
  {
  }

  lemma RevLess(x: nat, n: nat)
    ensures Rev(x, n) < Pow2(n)
  {
  }

  lemma {:induction false} Pow2Mono(m: nat, n: nat)
    requires m <= n
    ensures Pow2(m) <= Pow2(n)
    ensures m < n ==> Pow2(m) < Pow2(n)
  {
    if m < n {
      Pow2Mono(m, n - 1);
    }
  }

  lemma {:induction false} ShlPow2(m: nat, n: nat)
    ensures Shl(Pow2(m), n) == Pow2(m + n)
  {
    if n > 0 {
      ShlPow2(m, n - 1);
    }
  }

  lemma {:induction false} ShlAdd(a: nat, b: nat, n: nat)
    ensures Shl(a + b, n) == Shl(a, n) + Shl(b, n)
  {
    if n > 0 {
      ShlAdd(a, b, n - 1);
    }
  }

  lemma {:induction false} ShlShl(a: nat, m: nat, n: nat)
    ensures Shl(Shl(a, m), n) == Shl(a, m + n)
  {
    if n > 0 {
      ShlShl(a, m, n - 1);
    }
  }

  lemma {:induction false} ShlZero(n: nat)
    ensures Shl(0, n) == 0
  {
    if n > 0 {
      ShlZero(n - 1);
    }
  }

  /** Different multiples of 2^n are at least 2^n apart. */
  lemma {:induction false} ShlGap(a: nat, b: nat, n: nat)
    requires a < b
    ensures Shl(a, n) + Pow2(n) <= Shl(b, n)
  {
    if n > 0 {
      ShlGap(a, b, n - 1);
    }
  }

  /** A number below 2^m, shifted by n, stays below 2^(m+n) by a whole step. */
  lemma ShlBound(a: nat, m: nat, n: nat)
    requires a < Pow2(m)
    ensures Shl(a, n) + Pow2(n) <= Pow2(m + n)
  {
    ShlGap(a, Pow2(m), n);
    ShlPow2(m, n);
  }

  lemma {:induction false} HalfDouble(x: nat, n: nat)
    requires n > 0
    ensures Shl(x, n) / 2 == Shl(x, n - 1) && Shl(x, n) % 2 == 0
  {
  }

  /** x splits into its low n bits and the rest. */
  lemma {:induction false} SplitAt(x: nat, n: nat)
    ensures x == Low(x, n) + Shl(Shr(x, n), n)
  {
    if n > 0 {
      SplitAt(x / 2, n - 1);
    }
  }

  /** ... and the split is unique. */
  lemma {:induction false} SplitUnique(x: nat, n: nat, a: nat, b: nat)
    requires a < Pow2(n) && x == a + Shl(b, n)
    ensures Low(x, n) == a && Shr(x, n) == b
  {
    if n > 0 {
      SplitUnique(x / 2, n - 1, a / 2, b);
    }
  }

  lemma {:induction false} ShrShr(x: nat, m: nat, n: nat)
    ensures Shr(Shr(x, m), n) == Shr(x, m + n)
  {
    if m > 0 {
      ShrShr(x / 2, m - 1, n);
    }
  }

  lemma {:induction false} LowSplit(x: nat, m: nat, n: nat)
    ensures Low(x, m + n) == Low(x, m) + Shl(Low(Shr(x, m), n), m)
  {
    if m > 0 {
      LowSplit(x / 2, m - 1, n);
    }
  }

  lemma {:induction false} LowLow(x: nat, m: nat, n: nat)
    requires m <= n
    ensures Low(Low(x, n), m) == Low(x, m)
  {
    if m > 0 {
      LowLow(x / 2, m - 1, n - 1);
    }
  }

  /** A number already below 2^n is its own low part. */
  lemma LowSmall(x: nat, n: nat)
    requires x < Pow2(n)
    ensures Low(x, n) == x && Shr(x, n) == 0
  {
    ShlZero(n);
    SplitUnique(x, n, x, 0);
  }

  lemma {:induction false} ShrBound(x: nat, m: nat, n: nat)
    requires x < Pow2(m + n)
    ensures Shr(x, m) < Pow2(n)
    decreases m
  {
    if m > 0 {
      assert Pow2(m + n) == 2 * Pow2(m - 1 + n);
      ShrBound(x / 2, m - 1, n);
    }
  }

  lemma {:induction false} RevOfZero(n: nat)
    ensures Rev(0, n) == 0
  {
    if n > 0 {
      RevOfZero(n - 1);
    }
  }

  lemma {:induction false} RevLow(x: nat, n: nat)
    ensures Rev(Low(x, n), n) == Rev(x, n)
  {
    if n > 0 {
      RevLow(x / 2, n - 1);
      var y := Low(x, n);
      assert y == x % 2 + 2 * Low(x / 2, n - 1);
      assert y / 2 == Low(x / 2, n - 1) && y % 2 == x % 2;
    }
  }

  /** The first m bits of x end up on top of the following n. */
  lemma {:induction false} RevSplit(x: nat, m: nat, n: nat)
    ensures Rev(x, m + n) == Shl(Rev(x, m), n) + Rev(Shr(x, m), n)
    decreases m
  {
    if m == 0 {
      ShlZero(n);
    } else {
      RevSplit(x / 2, m - 1, n);
      var t := if x % 2 == 1 then Pow2(m - 1) else 0;
      ShlAdd(t, Rev(x / 2, m - 1), n);
      ShlPow2(m - 1, n);
      ShlZero(n);
    }
  }

  lemma RevBit(b: nat)
    requires b < 2
    ensures Rev(b, 1) == b
  {
    assert Rev(b, 1) == (if b % 2 == 1 then Pow2(0) else 0) + Rev(b / 2, 0);
  }

  lemma {:induction false} RevRev(x: nat, n: nat)
    requires x < Pow2(n)
    ensures Rev(Rev(x, n), n) == x
  {
    if n > 0 {
      var b, y := x % 2, x / 2;
      RevRev(y, n - 1);
      var t := Rev(y, n - 1);
      var r := Rev(x, n);
      ShlZero(n - 1);
      ShlPow2(0, n - 1);
      SplitUnique(r, n - 1, t, b);
      RevSplit(r, n - 1, 1);
      RevLow(r, n - 1);
      RevBit(b);
      assert Shl(Rev(r, n - 1), 1) == 2 * Shl(y, 0);
    }
  }

  lemma RevInjective(x: nat, y: nat, n: nat)
    requires x < Pow2(n) && y < Pow2(n) && Rev(x, n) == Rev(y, n)
    ensures x == y
  {
    RevRev(x, n);
    RevRev(y, n);
  }

  /** A number below 2^m, reversed in a wider field, is its m-bit reversal shifted up. */
  lemma RevPad(x: nat, m: nat, n: nat)
    requires x < Pow2(m)
    ensures Rev(x, m + n) == Shl(Rev(x, m), n)
  {
    RevSplit(x, m, n);
    LowSmall(x, m);
    RevOfZero(n);
  }
}
