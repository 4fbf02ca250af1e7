/**
 * The register of crc32.c as a remainder of polynomials over GF(2),
 * bit i of a number being the coefficient of x^i.
 */
module CrcPolynomial {
  import opened Arith
  import opened Stream
  import opened HashChains
  import opened Checksums

  /** x^32 + x^26 + x^23 + x^22 + x^16 + x^12 + x^11 + x^10 + x^8 + x^7 + x^5 + x^4 + x^2 + x + 1 */
  const P32: nat := 0x1_04c1_1db7

  /** The product of two polynomials. */
  function Times(q: nat, p: nat): nat {
    if q == 0 then 0 else Xor(if q % 2 == 1 then p else 0, 2 * Times(q / 2, p))
  }

  /** a and b differ by a multiple of the polynomial. */
  ghost predicate Congruent(a: nat, b: nat) { exists q: nat :: Xor(a, b) == Times(q, P32) }

  /** The bytes as a polynomial, the lowest bit of the first byte being the highest coefficient. */
  function Message(buf: seq<byte>): nat {
    if buf == [] then 0 else Xor(Shl(Message(buf[..|buf| - 1]), 8), Rev(buf[|buf| - 1], 8))
  }

  // ---- sums and products ----

  lemma XorDouble(x: nat, y: nat)
    ensures Xor(2 * x, 2 * y) == 2 * Xor(x, y)
  {
    XorHalf(2 * x, 2 * y);
  }

  lemma {:induction false} ShlXor(x: nat, y: nat, n: nat)
    ensures Shl(Xor(x, y), n) == Xor(Shl(x, n), Shl(y, n))
  {
    hide Xor;
    if n > 0 {
      ShlXor(x, y, n - 1);
      XorDouble(Shl(x, n - 1), Shl(y, n - 1));
    }
  }

  lemma {:induction false} XorTop(a: nat, b: nat, x: nat, y: nat, n: nat)
    requires a < 2 && b < 2 && x < Pow2(n) && y < Pow2(n)
    ensures Xor((if a == 1 then Pow2(n) else 0) + x, (if b == 1 then Pow2(n) else 0) + y)
      == (if a == b then 0 else Pow2(n)) + Xor(x, y)
    ensures Xor(x, y) < Pow2(n)
    decreases n
  {
    hide Xor;
    if n == 0 {
      BitXor(a, b);
    } else {
      XorTop(a, b, x / 2, y / 2, n - 1);
      XorHalf(x, y);
      XorHalf((if a == 1 then Pow2(n) else 0) + x, (if b == 1 then Pow2(n) else 0) + y);
    }
  }

  lemma BitXor(a: nat, b: nat)
    requires a < 2 && b < 2
    ensures Xor(a, b) == (if a == b then 0 else 1) && Xor(0, 0) == 0
  {
  }

  lemma {:induction false} RevXor(x: nat, y: nat, n: nat)
    ensures Rev(Xor(x, y), n) == Xor(Rev(x, n), Rev(y, n))
    decreases n
  {
    hide Xor;
    if n == 0 {
      BitXor(0, 0);
    } else {
      RevXor(x / 2, y / 2, n - 1);
      XorHalf(x, y);
      XorTop(x % 2, y % 2, Rev(x / 2, n - 1), Rev(y / 2, n - 1), n - 1);
    }
  }

  /** (a + b) + (c + d) == (a + c) + (b + d) */
  lemma XorPairs(a: nat, b: nat, c: nat, d: nat)
    ensures Xor(Xor(a, b), Xor(c, d)) == Xor(Xor(a, c), Xor(b, d))
  {
    hide Xor;
    XorGroup(a, b, Xor(c, d));
    XorGroup(b, c, d);
    XorSwap(b, c);
    XorGroup(c, b, d);
    XorGroup(a, c, Xor(b, d));
  }

  lemma {:induction false} TimesXor(q: nat, r: nat, p: nat)
    ensures Times(Xor(q, r), p) == Xor(Times(q, p), Times(r, p))
    decreases q + r
  {
    hide Xor;
    XorZeros(q);
    XorZeros(r);
    XorZeros(Times(q, p));
    XorZeros(Times(r, p));
    if q > 0 && r > 0 {
      TimesXor(q / 2, r / 2, p);
      XorHalf(q, r);
      TimesHalf(Xor(q, r), p);
      XorPairs(if q % 2 == 1 then p else 0, 2 * Times(q / 2, p), if r % 2 == 1 then p else 0, 2 * Times(r / 2, p));
      XorDouble(Times(q / 2, p), Times(r / 2, p));
      XorSelf(p);
      XorZeros(p);
      XorZeros(0);
    }
  }

  lemma TimesHalf(q: nat, p: nat)
    ensures Times(q, p) == Xor(if q % 2 == 1 then p else 0, 2 * Times(q / 2, p))
  {
    XorZeros(0);
  }

  // ---- congruence ----

  lemma CongruentSame(a: nat)
    ensures Congruent(a, a)
  {
    hide Xor;
    XorSelf(a);
    assert Times(0, P32) == 0;
  }

  lemma CongruentOn(a: nat, b: nat, c: nat)
    requires Congruent(a, b) && Congruent(b, c)
    ensures Congruent(a, c)
  {
    hide Xor, Times;
    var q: nat :| Xor(a, b) == Times(q, P32);
    var r: nat :| Xor(b, c) == Times(r, P32);
    TimesXor(q, r, P32);
    XorGroup(a, b, Xor(b, c));
    XorGroup(b, b, c);
    XorSelf(b);
    XorZeros(c);
    assert Xor(a, c) == Times(Xor(q, r), P32);
  }

  /** The same may be added on both sides, ... */
  lemma CongruentAdd(a: nat, b: nat, c: nat)
    requires Congruent(a, b)
    ensures Congruent(Xor(a, c), Xor(b, c))
  {
    hide Xor, Times;
    XorPairs(a, c, b, c);
    XorSelf(c);
    XorZeros(Xor(a, b));
  }

  /** ... and both multiplied by x. */
  lemma CongruentDouble(a: nat, b: nat)
    requires Congruent(a, b)
    ensures Congruent(2 * a, 2 * b)
  {
    hide Xor, Times;
    var q: nat :| Xor(a, b) == Times(q, P32);
    XorDouble(a, b);
    TimesHalf(2 * q, P32);
    XorZeros(2 * Times(q, P32));
    assert Xor(2 * a, 2 * b) == Times(2 * q, P32);
  }

  lemma {:induction false} CongruentShl(a: nat, b: nat, n: nat)
    requires Congruent(a, b)
    ensures Congruent(Shl(a, n), Shl(b, n))
    decreases n
  {
    hide Xor, Times, Congruent;
    if n > 0 {
      CongruentShl(a, b, n - 1);
      CongruentDouble(Shl(a, n - 1), Shl(b, n - 1));
    }
  }

  /** A multiple of the polynomial other than 0 has degree 32 at least. */
  lemma {:induction false} TimesLarge(q: nat)
    requires q > 0
    ensures Times(q, P32) >= Pow2(32)
  {
    hide Xor;
    HighPowers();
    TimesHalf(q, P32);
    XorZeros(if q % 2 == 1 then P32 else 0);
    XorZeros(2 * Times(q / 2, P32));
    if q > 1 {
      TimesLarge(q / 2);
      var t, b := 2 * Times(q / 2, P32), if q % 2 == 1 then P32 else 0;
      assert Pow2(33) == 2 * Pow2(32);
      XorSwap(b, t);
      XorHigh(t, b, 33);
      ShrLess(Xor(t, b), 33);
      ShrLess(t, 33);
    }
  }

  lemma ShrLess(x: nat, n: nat)
    ensures Shr(x, n) == 0 <==> x < Pow2(n)
  {
    hide Pow2, Shl, Shr, Low;
    SplitAt(x, n);
    ShlZero(n);
    if x < Pow2(n) {
      LowSmall(x, n);
    }
  }

  /** So a remainder is the only number below x^32 in its class. */
  lemma OneRemainder(a: nat, b: nat)
    requires a < Pow2(32) && b < Pow2(32) && Congruent(a, b)
    ensures a == b
  {
    hide Xor, Times, Pow2;
    var q: nat :| Xor(a, b) == Times(q, P32);
    XorTop(0, 0, a, b, 32);
    if q > 0 {
      TimesLarge(q);
    }
    assert Times(0, P32) == 0 by {
      TimesNone();
    }
    XorGroup(a, b, b);
    XorSelf(b);
    XorZeros(a);
    XorZeros(b);
  }

  lemma TimesNone()
    ensures Times(0, P32) == 0
  {
  }

  // ---- the register ----

  /** The polynomial with these terms. */
  function PolyOf(terms: seq<nat>): nat {
    if terms == [] then 0 else PolyOf(terms[..|terms| - 1]) + Pow2(terms[|terms| - 1])
  }

  /** A bit below all others goes above all others. */
  lemma {:induction false} RevOne(x: nat, k: nat, n: nat)
    requires k < n && Low(x, k + 1) == 0
    ensures Rev(x + Pow2(k), n) == Rev(x, n) + Pow2(n - 1 - k) && Low(x + Pow2(k), k) == 0
    decreases k
  {
    assert x % 2 == 0 && Low(x / 2, k) == 0;
    if k > 0 {
      RevOne(x / 2, k - 1, n - 1);
      assert (x + Pow2(k)) / 2 == x / 2 + Pow2(k - 1) && (x + Pow2(k)) % 2 == 0;
    }
  }

  predicate Ascending(terms: seq<nat>) {
    (forall i | 0 <= i < |terms| :: terms[i] <= 31) && forall i | 0 < i < |terms| :: terms[i - 1] < terms[i]
  }

  /** The pattern is the polynomial with its bits reversed. */
  lemma {:induction false} PatternReversed(terms: seq<nat>)
    requires Ascending(terms)
    ensures Rev(Pattern(terms), 32) == PolyOf(terms) && Pattern(terms) < Pow2(32)
    ensures Low(Pattern(terms), if terms == [] then 32 else 31 - terms[|terms| - 1]) == 0
    decreases |terms|
  {
    hide Low, Rev, Pow2;
    if terms == [] {
      RevOfZero(32);
    } else {
      var us, t := terms[..|terms| - 1], terms[|terms| - 1];
      PatternReversed(us);
      var x, m := Pattern(us), if us == [] then 32 else 31 - us[|us| - 1];
      LowLow(x, 32 - t, m);
      RevOne(x, 31 - t, 32);
      LowRoom(x, 31 - t, 32);
    }
  }

  /** There is room for a bit below the others. */
  lemma LowRoom(x: nat, k: nat, n: nat)
    requires k < n && Low(x, k + 1) == 0 && x < Pow2(n)
    ensures x + Pow2(k) < Pow2(n)
  {
    hide Low, Shl, Pow2;
    SplitAt(x, k + 1);
    ShlPow2(n - k - 1, 0);
    ShlGapLess(Shr(x, k + 1), n - k - 1, k + 1);
    Pow2Mono(k, k + 1);
  }

  lemma ShlGapLess(a: nat, m: nat, n: nat)
    requires Shl(a, n) < Pow2(m + n)
    ensures Shl(a, n) + Pow2(n) <= Pow2(m + n)
  {
    ShlPow2(m, n);
    if a < Pow2(m) {
      ShlGap(a, Pow2(m), n);
    } else if Pow2(m) < a {
      ShlGap(Pow2(m), a, n);
    }
  }

  lemma PolyReversed()
    ensures Rev(POLY, 32) + Pow2(32) == P32 && POLY < Pow2(32)
  {
    hide Pow2, Rev, Pattern, PolyOf;
    PolyIs();
    PatternReversed(TERMS);
    TermsSum();
  }

  lemma TermsSum()
    ensures Pow2(32) + PolyOf(TERMS) == P32 && Ascending(TERMS)
  {
    hide Pow2, PolyOf;
    HighPowers();
    LowPowers();
    TermMore(0); TermMore(1); TermMore(2); TermMore(3); TermMore(4); TermMore(5); TermMore(6); TermMore(7); TermMore(8);
    TermMore(9); TermMore(10); TermMore(11); TermMore(12); TermMore(13);
    TermNone();
    assert TERMS[..14] == TERMS && TERMS[..0] == [];
  }

  lemma LowPowers()
    ensures Pow2(0) == 1 && Pow2(1) == 2 && Pow2(2) == 4 && Pow2(4) == 16 && Pow2(7) == 128 && Pow2(10) == 1024
    ensures Pow2(11) == 2048 && Pow2(12) == 4096 && Pow2(16) == 0x1_0000 && Pow2(22) == 0x40_0000
  {
    HighPowers();
  }

  lemma TermMore(n: nat)
    requires n < |TERMS|
    ensures PolyOf(TERMS[..n + 1]) == PolyOf(TERMS[..n]) + Pow2(TERMS[n])
  {
    hide Pow2;
    assert TERMS[..n + 1][..n] == TERMS[..n];
  }

  lemma TermNone()
    ensures PolyOf([]) == 0
  {
  }

  /** One step of the register multiplies by x. */
  lemma StepCongruent(c: nat)
    requires c < Pow2(32)
    ensures CrcStep(c) < Pow2(32) && Congruent(Rev(CrcStep(c), 32), 2 * Rev(c, 32))
  {
    hide Xor, Pow2, Rev, Times, Congruent;
    var y := Rev(c / 2, 31);
    HalfLess(c);
    RevPad(c / 2, 31, 1);
    ShlTwice(y);
    RevLess(c / 2, 31);
    if c % 2 == 1 {
      var p := Rev(POLY, 32);
      PolyReversed();
      RevLess(POLY, 32);
      RevXor(POLY, c / 2, 32);
      XorTop(0, 0, POLY, c / 2, 32);
      OddStep(p, y);
    } else {
      XorTop(0, 0, c / 2, c / 2, 32);
      CongruentSame(2 * y);
    }
  }

  lemma HalfLess(c: nat)
    requires c < Pow2(32)
    ensures c / 2 < Pow2(31) && Pow2(32) == 2 * Pow2(31)
    ensures Rev(c, 32) == (if c % 2 == 1 then Pow2(31) else 0) + Rev(c / 2, 31)
  {
  }

  lemma OddStep(p: nat, y: nat)
    requires p + Pow2(32) == P32 && p < Pow2(32) && y < Pow2(31) && Pow2(32) == 2 * Pow2(31)
    ensures Congruent(Xor(p, 2 * y), 2 * (Pow2(31) + y))
  {
    hide Xor, Pow2;
    XorTop(0, 0, p, 2 * y, 32);
    XorTop(0, 1, Xor(p, 2 * y), 2 * y, 32);
    XorGroup(p, 2 * y, 2 * y);
    XorSelf(2 * y);
    XorZeros(p);
    OneTimes();
    assert Xor(Xor(p, 2 * y), 2 * (Pow2(31) + y)) == Times(1, P32);
  }

  lemma OneTimes()
    ensures Times(1, P32) == P32
  {
    XorZeros(P32);
  }

  lemma {:induction false} StepsCongruent(c: nat, k: nat)
    requires c < Pow2(32)
    ensures CrcSteps(c, k) < Pow2(32) && Congruent(Rev(CrcSteps(c, k), 32), Shl(Rev(c, 32), k))
    decreases k
  {
    hide Xor, Pow2, Rev, Congruent, CrcStep;
    if k == 0 {
      CongruentSame(Rev(c, 32));
    } else {
      StepsCongruent(c, k - 1);
      var d := CrcSteps(c, k - 1);
      StepCongruent(d);
      CongruentDouble(Rev(d, 32), Shl(Rev(c, 32), k - 1));
      CongruentOn(Rev(CrcStep(d), 32), 2 * Rev(d, 32), 2 * Shl(Rev(c, 32), k - 1));
    }
  }

  /** A byte takes the register times x^8 and the byte times x^32. */
  lemma ByteCongruent(c: nat, b: byte)
    requires c < Pow2(32)
    ensures CrcByte(c, b) < Pow2(32)
    ensures Congruent(Rev(CrcByte(c, b), 32), Xor(Shl(Rev(c, 32), 8), Shl(Rev(b, 8), 32)))
  {
    hide Xor, Pow2, Rev, Congruent, CrcSteps, Shl;
    EightBits();
    Pow2Mono(8, 32);
    XorTop(0, 0, c, b, 32);
    RevXor(c, b, 32);
    RevPad(b, 8, 24);
    ShlXor(Rev(c, 32), Shl(Rev(b, 8), 24), 8);
    ShlShl(Rev(b, 8), 24, 8);
    StepsCongruent(Xor(c, b), 8);
  }

  /**
   * The register after the bytes is the remainder, modulo the polynomial, of the bytes times x^32 added
   * to the register before times x^8 for each byte; OneRemainder says that there is no other.
   */
  lemma {:induction false} CrcIsRemainder(c: nat, buf: seq<byte>)
    requires c < Pow2(32)
    ensures Crc(c, buf) < Pow2(32)
    ensures Congruent(Rev(Crc(c, buf), 32), Xor(Shl(Rev(c, 32), 8 * |buf|), Shl(Message(buf), 32)))
    decreases |buf|
  {
    hide Xor, Pow2, Rev, Congruent, CrcByte, Shl;
    var r, n := Rev(c, 32), 8 * |buf|;
    if buf == [] {
      ShlZero(32);
      ShlNone(r);
      XorZeros(r);
      CongruentSame(r);
    } else {
      var t, b := buf[..|buf| - 1], buf[|buf| - 1];
      CrcIsRemainder(c, t);
      var d := Rev(Crc(c, t), 32);
      var m := Xor(Shl(r, n - 8), Shl(Message(t), 32));
      ByteCongruent(Crc(c, t), b);
      CongruentShl(d, m, 8);
      CongruentAdd(Shl(d, 8), Shl(m, 8), Shl(Rev(b, 8), 32));
      CongruentOn(Rev(Crc(c, buf), 32), Xor(Shl(d, 8), Shl(Rev(b, 8), 32)), Xor(Shl(m, 8), Shl(Rev(b, 8), 32)));
      MessageShift(r, n, Message(t), Rev(b, 8));
    }
  }

  lemma MessageShift(r: nat, n: nat, m: nat, b: nat)
    requires n >= 8
    ensures Xor(Shl(Xor(Shl(r, n - 8), Shl(m, 32)), 8), Shl(b, 32)) == Xor(Shl(r, n), Shl(Xor(Shl(m, 8), b), 32))
  {
    hide Xor, Shl;
    ShlXor(Shl(r, n - 8), Shl(m, 32), 8);
    ShlShl(r, n - 8, 8);
    ShlShl(m, 32, 8);
    ShlShl(m, 8, 32);
    ShlXor(Shl(m, 8), b, 32);
    XorGroup(Shl(r, n), Shl(m, 40), Shl(b, 32));
  }
}
