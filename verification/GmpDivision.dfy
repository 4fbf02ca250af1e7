/** Two-limb multiplication and division of GMP's longlong.h and gmp-impl.h, for any even word size. */
module GmpDivision {
  import opened Arith
  import opened Stream

  /** A word of 2h bits: __ll_B is the base of half a word. */
  function HalfBase(h: nat): (b: nat)
    ensures b >= 1
  {
    Pow2(h)
  }

  function Base(h: nat): (b: nat)
    ensures b >= 1
  {
    Pow2(h + h)
  }

  lemma BaseIs(h: nat)
    ensures Base(h) == HalfBase(h) * HalfBase(h)
  {
    PowAdd(h, h);
  }

  lemma {:induction false} PowAdd(m: nat, n: nat)
    ensures Pow2(m + n) == Pow2(m) * Pow2(n)
  {
    if n > 0 {
      PowAdd(m, n - 1);
      assert Pow2(m + n) == 2 * Pow2(m + (n - 1));
    }
  }

  lemma {:induction false} ShlIsMul(x: nat, n: nat)
    ensures Shl(x, n) == x * Pow2(n)
  {
    if n > 0 {
      ShlIsMul(x, n - 1);
    }
  }

  /** __ll_highpart and __ll_lowpart */
  lemma Parts(x: nat, h: nat)
    requires x < Base(h)
    ensures Shr(x, h) < HalfBase(h) && Low(x, h) < HalfBase(h) && x == Shr(x, h) * HalfBase(h) + Low(x, h)
  {
    hide Shr, Low, Pow2;
    SplitAt(x, h);
    ShlIsMul(Shr(x, h), h);
    ShrBound(x, h, h);
    LowBound(x, h);
  }

  /** A half word shifted up, or-ed with another, is their sum. */
  lemma Joined(x: nat, y: nat, h: nat)
    requires y < HalfBase(h)
    ensures Or(y, Shl(x, h)) == x * HalfBase(h) + y
  {
    hide Pow2, Or;
    OrAbove(y, x, h);
    ShlIsMul(x, h);
  }

  // ---- words ----

  /** Addition and subtraction of words, modulo the base. */
  function Plus(x: nat, y: nat, b: nat): (r: nat)
    requires x < b && y < b
    ensures r < b
    ensures r == x + y || r == x + y - b
  {
    if x + y < b then x + y else x + y - b
  }

  function Minus(x: nat, y: nat, b: nat): (r: nat)
    requires x < b && y < b
    ensures r < b
    ensures r == x - y || r == x - y + b
  {
    if x >= y then x - y else x - y + b
  }

  lemma Distribute(x: int, y: int, z: int)
    ensures (x + y) * z == x * z + y * z
    ensures (x - y) * z == x * z - y * z
  {
  }

  lemma Less(x: int, y: int, z: int)
    requires x <= y && z >= 0
    ensures x * z <= y * z
  {
  }

  lemma Cancel(x: int, y: int, z: int)
    requires x * z < y * z && z > 0
    ensures x < y
  {
    if x >= y {
      Less(y, x, z);
    }
  }

  /** Two words as one number. */
  function Two(hi: nat, lo: nat, b: nat): nat { hi * b + lo }

  /** add_ssaaaa: the sum of two two-word numbers, less the carry out. */
  method AddSsaaaa(h: nat, ah: nat, al: nat, bh: nat, bl: nat) returns (sh: nat, sl: nat)
    requires ah < Base(h) && al < Base(h) && bh < Base(h) && bl < Base(h)
    ensures sh < Base(h) && sl < Base(h)
    ensures var b := Base(h);
      || Two(ah, al, b) + Two(bh, bl, b) == Two(sh, sl, b)
      || Two(ah, al, b) + Two(bh, bl, b) == Two(sh, sl, b) + b * b
  {
    hide Pow2;
    var b := Base(h);
    var x := Plus(al, bl, b);
    var carry := if x < al then 1 else 0;
    sh := Plus(ah, bh, b);
    ghost var c1 := if ah + bh < b then 0 else 1;
    if sh + carry == b {
      sh := 0;
    } else {
      sh := sh + carry;
    }
    sl := x;
    ghost var c2 := if Plus(ah, bh, b) + carry == b then 1 else 0;
    assert al + bl == x + carry * b;
    assert ah + bh + carry == sh + (c1 + c2) * b;
    CarryTwo(ah, bh, sh, carry, c1 + c2, b);
  }

  lemma CarryTwo(ah: int, bh: int, sh: int, carry: int, c: int, b: int)
    requires ah + bh + carry == sh + c * b
    ensures ah * b + bh * b + carry * b == sh * b + c * (b * b)
  {
    assert (ah + bh + carry) * b == (sh + c * b) * b;
  }

  /** sub_ddmmss: the difference of two two-word numbers, plus the borrow. */
  method SubDdmmss(h: nat, ah: nat, al: nat, bh: nat, bl: nat) returns (sh: nat, sl: nat)
    requires ah < Base(h) && al < Base(h) && bh < Base(h) && bl < Base(h)
    ensures sh < Base(h) && sl < Base(h)
    ensures var b := Base(h);
      || Two(ah, al, b) - Two(bh, bl, b) == Two(sh, sl, b)
      || Two(ah, al, b) - Two(bh, bl, b) == Two(sh, sl, b) - b * b
  {
    hide Pow2;
    var b := Base(h);
    var x := Minus(al, bl, b);
    var borrow := if x > al then 1 else 0;
    sh := Minus(ah, bh, b);
    ghost var c1 := if ah >= bh then 0 else 1;
    ghost var c2 := if Minus(ah, bh, b) < borrow then 1 else 0;
    if sh < borrow {
      sh := b - 1;
    } else {
      sh := sh - borrow;
    }
    sl := x;
    assert al - bl == x - borrow * b;
    assert ah - bh - borrow == sh - (c1 + c2) * b;
    BorrowTwo(ah, bh, sh, borrow, c1 + c2, b);
  }

  lemma BorrowTwo(ah: int, bh: int, sh: int, borrow: int, c: int, b: int)
    requires ah - bh - borrow == sh - c * b
    ensures ah * b - bh * b - borrow * b == sh * b - c * (b * b)
  {
    assert (ah - bh - borrow) * b == (sh - c * b) * b;
  }

  // ---- umul_ppmm ----

  /** A product of half words, plus a half word, plus another, fits a word. */
  lemma HalfProduct(u: nat, v: nat, k: nat)
    requires u < k && v < k
    ensures u * v + 2 * (k - 1) < k * k
  {
    Less(u, k - 1, v);
    Less(v, k - 1, k - 1);
    Distribute(k - 1, 1, k - 1);
    assert (k - 1) * (k - 1) + 2 * (k - 1) + 1 == k * k;
  }

  /** A product that no one looks into. */
  function Product(x: nat, y: nat): nat { x * y }

  lemma ProductIs(x: nat, y: nat)
    ensures Product(x, y) == x * y
  {
  }

  /** The four partial products make up the product. */
  lemma FourProducts(uh: int, ul: int, vh: int, vl: int, k: int, b: int, p0: int, p1: int, p2: int, p3: int)
    requires b == k * k && p0 == ul * vl && p1 == ul * vh && p2 == uh * vl && p3 == uh * vh
    ensures (uh * k + ul) * (vh * k + vl) == p3 * b + (p1 + p2) * k + p0
  {
    Distribute(uh * k, ul, vh * k + vl);
    assert uh * k * (vh * k + vl) == uh * vh * (k * k) + uh * vl * k;
    assert ul * (vh * k + vl) == ul * vh * k + ul * vl;
    Distribute(ul * vh, uh * vl, k);
  }

  /** Putting the pieces of the product together. */
  lemma Assemble(x0: int, a: int, x2: int, x3: int, h0: int, l0: int, h1: int, l1: int, c: int, k: int, b: int)
    requires b == k * k && x0 == h0 * k + l0 && a + h0 + x2 == h1 * k + l1 + c * b
    ensures (x3 + c * k + h1) * b + (l1 * k + l0) == x3 * b + (a + x2) * k + x0
  {
    assert (a + h0 + x2) * k == (h1 * k + l1 + c * b) * k;
    assert (h1 * k + l1 + c * b) * k == h1 * b + l1 * k + c * k * b;
    assert (a + h0 + x2) * k == (a + x2) * k + h0 * k;
    assert (x3 + c * k + h1) * b == x3 * b + c * k * b + h1 * b;
  }

  lemma ProductRange(u: nat, v: nat, b: nat)
    requires u < b && v < b
    ensures u * v < b * b && u * v <= (b - 1) * (b - 1)
  {
    Less(u, b - 1, v);
    Less(v, b - 1, b - 1);
    Less(b - 1, b, b - 1);
    Less(b - 1, b, b);
  }

  lemma TopFits(w1: int, w0: int, b: int)
    requires w0 >= 0 && w1 * b + w0 < b * b && b > 0
    ensures w1 < b
  {
    Cancel(w1, b, b);
  }

  /** The words that umul_ppmm makes of the pieces, c being the carry of the middle ones. */
  lemma PiecesRight(k: nat, b: nat, u: nat, v: nat, ul: nat, uh: nat, vl: nat, vh: nat, x0: nat, x1: nat, x2: nat,
                    x3: nat, c: nat, mid: nat, h0: nat, l0: nat, h1: nat, l1: nat, w1: nat, w0: nat)
    requires b == k * k && u == uh * k + ul && v == vh * k + vl
    requires x0 == ul * vl && x1 == ul * vh && x2 == uh * vl && x3 == uh * vh
    requires x0 == h0 * k + l0 && mid == h1 * k + l1 && x1 + h0 + x2 == mid + c * b
    requires w1 == x3 + c * k + h1 && w0 == l1 * k + l0
    ensures w1 * b + w0 == u * v
  {
    FourProducts(uh, ul, vh, vl, k, b, x0, x1, x2, x3);
    Assemble(x0, x1, x2, x3, h0, l0, h1, l1, c, k, b);
  }

  /** The middle sum does not overflow before the second product is added. */
  lemma MiddleFits(h: nat, u: nat, v: nat, w: nat)
    requires u < HalfBase(h) && v < HalfBase(h) && w < HalfBase(h)
    ensures Product(u, v) + w < Base(h)
  {
    BaseIs(h);
    HalfProduct(u, v, HalfBase(h));
  }

  lemma TwoIs(hi: nat, lo: nat, b: nat)
    ensures Two(hi, lo, b) == hi * b + lo
  {
  }

  lemma HalvesRight(h: nat, x: nat, hi: nat, lo: nat)
    requires x < Base(h) && hi == Shr(x, h) && lo == Low(x, h)
    ensures hi < HalfBase(h) && lo < HalfBase(h)
  {
    hide *;
    Parts(x, h);
  }

  /** The result of umul_ppmm from its parts. */
  lemma WordsRight(h: nat, u: nat, v: nat, mid: nat, c: nat)
    requires u < Base(h) && v < Base(h) && mid < Base(h) && c <= 1
    requires Product(Low(u, h), Low(v, h)) < Base(h)
    requires Product(Low(u, h), Shr(v, h)) + Shr(Product(Low(u, h), Low(v, h)), h) + Product(Shr(u, h), Low(v, h))
             == mid + (if c == 1 then Base(h) else 0)
    ensures var w1 := Product(Shr(u, h), Shr(v, h)) + (if c == 1 then HalfBase(h) else 0) + Shr(mid, h);
      var w0 := Product(Low(mid, h), HalfBase(h)) + Low(Product(Low(u, h), Low(v, h)), h);
      w1 < Base(h) && w0 < Base(h) && Two(w1, w0, Base(h)) == u * v
  {
    hide *;
    var ul, uh, vl, vh := Low(u, h), Shr(u, h), Low(v, h), Shr(v, h);
    Parts(u, h);
    Parts(v, h);
    Parts(Product(ul, vl), h);
    Parts(mid, h);
    ProductIs(ul, vl);
    ProductIs(ul, vh);
    ProductIs(uh, vl);
    ProductIs(uh, vh);
    ProductIs(Low(mid, h), HalfBase(h));
    Times(c, Base(h));
    Times(c, HalfBase(h));
    var k, b := HalfBase(h), Base(h);
    BaseIs(h);
    var w1, w0 := Product(uh, vh) + (if c == 1 then k else 0) + Shr(mid, h),
      Product(Low(mid, h), k) + Low(Product(ul, vl), h);
    PiecesRight(k, b, u, v, ul, uh, vl, vh, Product(ul, vl), Product(ul, vh), Product(uh, vl), Product(uh, vh), c, mid,
                Shr(Product(ul, vl), h), Low(Product(ul, vl), h), Shr(mid, h), Low(mid, h), w1, w0);
    ProductRange(u, v, b);
    HalfRoom(Low(mid, h), Low(Product(ul, vl), h), k);
    TopFits(w1, w0, b);
    TwoIs(w1, w0, b);
  }

  /** umul_ppmm: the exact product of two words, in two words. */
  method UmulPpmm(h: nat, u: nat, v: nat) returns (w1: nat, w0: nat)
    requires u < Base(h) && v < Base(h)
    ensures w1 < Base(h) && w0 < Base(h) && Two(w1, w0, Base(h)) == u * v
  {
    hide *;
    var b := Base(h);
    var ul, uh, vl, vh := Low(u, h), Shr(u, h), Low(v, h), Shr(v, h);
    HalvesRight(h, u, uh, ul);
    HalvesRight(h, v, vh, vl);
    var x0, x1, x2, x3 := Product(ul, vl), Product(ul, vh), Product(uh, vl), Product(uh, vh);
    MiddleFits(h, ul, vl, 0);
    MiddleFits(h, uh, vl, 0);
    HalvesRight(h, x0, Shr(x0, h), Low(x0, h));
    MiddleFits(h, ul, vh, Shr(x0, h));
    x1 := x1 + Shr(x0, h);
    x1 := Plus(x1, x2, b);
    WordsRight(h, u, v, x1, if x1 < x2 then 1 else 0);
    if x1 < x2 {
      x3 := x3 + HalfBase(h);
    }
    w1 := x3 + Shr(x1, h);
    w0 := Product(Low(x1, h), HalfBase(h)) + Low(x0, h);
  }

  lemma HalfRoom(x: nat, y: nat, k: nat)
    requires x < k && y < k
    ensures x * k + y < k * k
  {
    Less(x, k - 1, k);
    Distribute(k, 1, k);
  }

  // ---- __udiv_qrnnd_c ----

  /** The divisor's top bit is set. */
  predicate Normal(h: nat, d: nat) { d < Base(h) <= d + d }

  /** Quotient and remainder of n by d. */
  predicate Divides(n: int, d: int, q: int, r: int) { n == q * d + r && 0 <= r < d }

  /** x / y and x % y of unsigned numbers */
  method DivMod(x: nat, y: nat) returns (q: nat, r: nat)
    requires y > 0
    ensures Divides(x, y, q, r)
  {
    q, r := x / y, x % y;
  }

  lemma HighOfNormal(h: nat, d: nat)
    requires h > 0 && Normal(h, d)
    ensures HalfBase(h) <= Shr(d, h) + Shr(d, h) && Shr(d, h) > 0
  {
    hide Shr, Low, Shl, Pow2;
    BaseIs(h);
    Parts(d, h);
    var k, d1, d0 := HalfBase(h), Shr(d, h), Low(d, h);
    HalfEven(h);
    if d1 + d1 + 2 <= k {
      Less(d1 + d1 + 2, k, k);
      Distribute(d1 + d1, 2, k);
    }
  }

  lemma HalfEven(h: nat)
    requires h > 0
    ensures HalfBase(h) % 2 == 0 && HalfBase(h) >= 2
  {
  }

  /** The quotient estimate is off by no more than can be corrected and its product fits a word. */
  lemma Estimate(n: nat, d: nat, d1: nat, d0: nat, q: nat, r: nat, k: nat)
    requires n < d == d1 * k + d0 && d0 < k <= d1 + d1 && d1 < k && Divides(n, d1, q, r)
    ensures q <= k + 1 && q * d0 < k * k && r * k < d
  {
    hide *;
    DividesIs(n, d1, q, r);
    QuotientNear(n, d1, d0, q, r, k);
    LargestProduct(q, d0, k);
    Less(r, d1, k);
  }

  lemma QuotientNear(n: int, d1: int, d0: int, q: int, r: int, k: int)
    requires 0 <= n < d1 * k + d0 && 0 <= d0 < k <= d1 + d1 && n == q * d1 + r && 0 <= r
    ensures q <= k + 1
  {
    if q >= k + 2 {
      Less(k + 2, q, d1);
      Distribute(k, 2, d1);
    }
  }

  lemma LargestProduct(q: int, d0: int, k: int)
    requires 0 <= q <= k + 1 && 0 <= d0 < k
    ensures q * d0 < k * k
  {
    Less(q, k + 1, d0);
    Less(d0, k - 1, k + 1);
    Distribute(k, 1, k + 1);
    Distribute(k, 1, k);
  }

  /** What remains once q0 * d is taken from n times k plus the next digit. */
  lemma Remains(n: int, d: int, d1: int, d0: int, q: int, r: int, k: int, digit: int)
    requires d == d1 * k + d0 && n == q * d1 + r
    ensures n * k + digit == q * d + (r * k + digit - q * d0)
  {
    assert n * k == (q * d1 + r) * k;
    assert (q * d1 + r) * k == q * (d1 * k) + r * k;
    assert q * d == q * (d1 * k) + q * d0;
  }

  lemma Corrected(n: int, d: int, q: int, x: int, c: int)
    requires n == q * d + x
    ensures n == (q - c) * d + (x + c * d)
  {
    Distribute(q, c, d);
  }

  lemma Digit(n: int, d: int, q: int, r: int, k: int, digit: int)
    requires 0 <= n < d && 0 <= digit < k && n * k + digit == q * d + r && 0 <= r < d && k > 0
    ensures 0 <= q < k
  {
    Less(n, d - 1, k);
    Distribute(d, 1, k);
    Cancel(q, k, d) by {
      assert q * d < k * d;
    }
    if q < 0 {
      Less(q, -1, d);
      assert n * k >= 0 by {
        Less(0, n, k);
      }
    }
  }

  /** The corrections: the divisor is added back at most twice. */
  method Correct(q: int, x: nat, m: nat, d: nat, b: nat) returns (q': int, r: nat, ghost c: int)
    requires x < d < b <= d + d && m < b
    ensures 0 <= c <= 2 && q' == q - c && r == x - m + c * d && r < d
  {
    q', c := q, 0;
    var x' := x;
    if x' < m {
      q', x', c := q' - 1, Plus(x', d, b), 1;
      if x' >= d {
        if x' < m {
          q', x', c := q' - 1, Plus(x', d, b), 2;
        }
      }
    }
    r := Minus(x', m, b);
  }

  /** One half of __udiv_qrnnd_c: the next half digit of the quotient and the remainder. */
  method HalfDivide(h: nat, n: nat, digit: nat, d: nat) returns (q: nat, r: nat)
    requires h > 0 && Normal(h, d) && n < d && digit < HalfBase(h)
    ensures Divides(n * HalfBase(h) + digit, d, q, r) && q < HalfBase(h)
  {
    hide *;
    var k, b := HalfBase(h), Base(h);
    BaseIs(h);
    NormalIs(h, d);
    var d1, d0 := Shr(d, h), Low(d, h);
    Parts(d, h);
    HighOfNormal(h, d);
    var q0, r1 := DivMod(n, d1);
    FirstGuess(h, n, digit, d, d1, d0, q0, r1);
    var m := q0 * d0;
    var x := Or(digit, Shl(r1, h));
    Joined(r1, digit, h);
    var q';
    ghost var c;
    q', r, c := Correct(q0, x, m, d, b);
    CorrectedDigit(n, digit, d, q0, x, m, c, r, k);
    q := q';
  }

  /** What is known before the corrections. */
  lemma FirstGuess(h: nat, n: nat, digit: nat, d: nat, d1: nat, d0: nat, q: nat, r: nat)
    requires n < d == d1 * HalfBase(h) + d0 && d0 < HalfBase(h) <= d1 + d1 && d1 < HalfBase(h) && digit < HalfBase(h)
    requires Divides(n, d1, q, r)
    ensures q * d0 < Base(h) && r * HalfBase(h) + digit < d
    ensures n * HalfBase(h) + digit == q * d + (r * HalfBase(h) + digit - q * d0)
  {
    hide *;
    var k := HalfBase(h);
    BaseIs(h);
    DividesIs(n, d1, q, r);
    Estimate(n, d, d1, d0, q, r, k);
    Remains(n, d, d1, d0, q, r, k, digit);
    RoomForDigit(r, d1, k, digit, d, d0);
  }

  lemma CorrectedDigit(n: int, digit: int, d: int, q: int, x: int, m: int, c: int, r: int, k: int)
    requires 0 <= n < d && 0 <= digit < k && n * k + digit == q * d + (x - m) && r == x - m + c * d && 0 <= r < d
    ensures Divides(n * k + digit, d, q - c, r) && 0 <= q - c < k
  {
    Corrected(n * k + digit, d, q, x - m, c);
    Digit(n, d, q - c, r, k, digit);
  }

  lemma NormalIs(h: nat, d: nat)
    requires Normal(h, d)
    ensures d < Base(h) <= d + d
  {
  }

  lemma DividesIs(n: int, d: int, q: int, r: int)
    requires Divides(n, d, q, r)
    ensures n == q * d + r && 0 <= r < d
  {
  }

  lemma DividesSo(n: int, d: int, q: int, r: int)
    requires n == q * d + r && 0 <= r < d
    ensures Divides(n, d, q, r)
  {
  }

  lemma RoomForDigit(r1: nat, d1: nat, k: nat, digit: nat, d: nat, d0: nat)
    requires r1 < d1 && digit < k && d == d1 * k + d0
    ensures r1 * k + digit < d
  {
    Less(r1, d1 - 1, k);
    Distribute(d1, 1, k);
  }

  /** The two half digits together. */
  lemma TwoDigits(n1: int, n0: int, hi: int, lo: int, d: int, q1: int, r1: int, q0: int, r0: int, k: int)
    requires n0 == hi * k + lo && n1 * k + hi == q1 * d + r1 && r1 * k + lo == q0 * d + r0
    ensures n1 * (k * k) + n0 == (q1 * k + q0) * d + r0
  {
    assert n1 * (k * k) + hi * k == (n1 * k + hi) * k;
    assert (q1 * d + r1) * k == q1 * k * d + r1 * k;
    Distribute(q1 * k, q0, d);
  }

  /** __udiv_qrnnd_c: divides a two-word number by a word with its top bit set. */
  method UdivQrnndC(h: nat, n1: nat, n0: nat, d: nat) returns (q: nat, r: nat)
    requires h > 0 && Normal(h, d) && n1 < d && n0 < Base(h)
    ensures Divides(Two(n1, n0, Base(h)), d, q, r) && q < Base(h)
  {
    hide *;
    var k := HalfBase(h);
    BaseIs(h);
    Parts(n0, h);
    var q1, r1 := HalfDivide(h, n1, Shr(n0, h), d);
    DividesIs(n1 * k + Shr(n0, h), d, q1, r1);
    var q0;
    q0, r := HalfDivide(h, r1, Low(n0, h), d);
    DividesIs(r1 * k + Low(n0, h), d, q0, r);
    TwoDigits(n1, n0, Shr(n0, h), Low(n0, h), d, q1, r1, q0, r, k);
    q := Or(q0, Shl(q1, h));
    Joined(q1, q0, h);
    HalfRoom(q1, q0, k);
    TwoIs(n1, n0, Base(h));
    DividesSo(Two(n1, n0, Base(h)), d, q, r);
  }

  // ---- division by multiplying with an inverse ----

  /** The largest word not larger than B^2/d - B, or the largest word when that is too large. */
  predicate Inverse(h: nat, d: nat, di: nat)
    requires d > 0
  {
    var b := Base(h);
    di == if b * b / d - b > b - 1 then b - 1 else b * b / d - b
  }

  /** What the inverse is good for: (B + di) * d misses B^2 by at most d. */
  lemma InverseGap(h: nat, d: nat, di: nat) returns (e: int)
    requires Normal(h, d) && Inverse(h, d, di)
    ensures di < Base(h) && (Base(h) + di) * d == Base(h) * Base(h) - e && 0 <= e <= d
  {
    hide *;
    var b := Base(h);
    NormalIs(h, d);
    InverseIs(h, d, di);
    var q, r := Quotient(b * b, d);
    GapIs(b, d, q, r, di);
    e := b * b - (b + di) * d;
  }

  lemma InverseIs(h: nat, d: nat, di: nat)
    requires d > 0 && Inverse(h, d, di)
    ensures di == if Base(h) * Base(h) / d - Base(h) > Base(h) - 1 then Base(h) - 1 else Base(h) * Base(h) / d - Base(h)
  {
  }

  lemma Quotient(x: nat, y: nat) returns (q: nat, r: nat)
    requires y > 0
    ensures q == x / y && x == q * y + r && r < y
  {
    q, r := x / y, x % y;
  }

  lemma GapIs(b: nat, d: nat, q: nat, r: nat, di: int)
    requires 0 < d < b <= d + d && b * b == q * d + r && r < d
    requires di == if q - b > b - 1 then b - 1 else q - b
    ensures 0 <= di < b && 0 <= b * b - (b + di) * d <= d
  {
    if q < b {
      Less(q + 1, b, d);
      Less(d, b, b);
      Distribute(q, 1, d);
    }
    if q - b > b - 1 {
      Less(b + b, q, d);
      Distribute(b + b, 1, d);
      Less(b, d + d, b);
      assert (b + b) * d == (d + d) * b;
    }
  }

  /** What a quotient estimate q leaves, scaled by b, when q * b is n1 * v less f and v * d is b^2 less e. */
  lemma ScaledRemainder(n1: int, n0: int, d: int, v: int, e: int, f: int, q: int, b: int)
    requires q * b == n1 * v - f && v * d == b * b - e
    ensures (n1 * b + n0 - q * d) * b == n0 * b + n1 * e + f * d
  {
    Distribute(n1 * b + n0, q * d, b);
    Distribute(n1 * b, n0, b);
    Distribute(n1 * v, f, d);
    Distribute(b * b, e, n1);
  }

  /** The remainder left by an estimate q of n1 * B + n0 over d: it is below B + 2d. */
  lemma PreinvEstimate(n1: int, n0: int, d: int, v: int, e: int, f: int, q: int, b: int)
    requires 0 <= n1 < d < b <= d + d && 0 <= n0 < b && 0 <= e <= d && 0 <= f < b && v * d == b * b - e
    requires q * b == n1 * v - f
    ensures 0 <= n1 * b + n0 - q * d < b + d + d
  {
    ScaledRemainder(n1, n0, d, v, e, f, q, b);
    SumBelow(n0, n1, e, f, d, b);
    SumAbove(n0, n1, e, f, d, b);
    Between(n1 * b + n0 - q * d, b + d + d, b);
  }

  /** The estimate is the high word of n1 * (B + di). */
  lemma HighEstimate(n1: int, di: int, ph: int, pl: int, b: int)
    requires n1 * di == ph * b + pl
    ensures (ph + n1) * b == n1 * (b + di) - pl
  {
    Distribute(ph, n1, b);
    Distribute(b, di, n1);
  }

  lemma Between(x: int, y: int, z: int)
    requires z > 0 && 0 <= x * z < y * z
    ensures 0 <= x < y
  {
    Cancel(x, y, z);
    if x < 0 {
      Less(x, -1, z);
    }
  }

  lemma SumBelow(n0: int, n1: int, e: int, pl: int, d: int, b: int)
    requires 0 <= n1 < d < b && 0 <= n0 < b && 0 <= e <= d && 0 <= pl < b
    ensures n0 * b + n1 * e + pl * d < (b + d + d) * b
  {
    Less(n0, b - 1, b);
    Less(n1, d, e);
    Less(e, d, d);
    Less(d, b, d);
    Less(pl, b, d);
    assert (b - 1) * b + d * b + b * d < (b + d + d) * b;
  }

  lemma SumAbove(n0: int, n1: int, e: int, pl: int, d: int, b: int)
    requires 0 <= n1 && 0 <= d && 0 <= b && 0 <= n0 && 0 <= e && 0 <= pl
    ensures n0 * b + n1 * e + pl * d >= 0
  {
    Less(0, n0, b);
    Less(0, n1, e);
    Less(0, pl, d);
  }

  /** A remainder below d makes the quotient a word. */
  lemma QuotientFits(n1: int, n0: int, d: int, q: int, r: int, b: int)
    requires 0 <= n1 < d && 0 <= n0 < b && n1 * b + n0 == q * d + r && 0 <= r && d > 0 && b > 0
    ensures q < b
  {
    Less(n1, d - 1, b);
    Distribute(d, 1, b);
    Cancel(q, b, d) by {
      assert q * d < b * d;
    }
  }

  /** Subtracting a word from a two-word number whose high word is not zero. */
  method SubtractWord(h: nat, xh: nat, r: nat, d: nat) returns (xh': nat, r': nat)
    requires 0 < xh < Base(h) && r < Base(h) && d < Base(h)
    ensures xh' < Base(h) && r' < Base(h) && Two(xh', r', Base(h)) == Two(xh, r, Base(h)) - d
  {
    hide *;
    var b := Base(h);
    xh', r' := SubDdmmss(h, xh, r, 0, d);
    TwoIs(0, d, b);
    TwoIs(xh, r, b);
    TwoIs(xh', r', b);
    NoBorrow(xh, r, d, xh', r', b);
  }

  lemma NoBorrow(xh: int, r: int, d: int, xh': int, r': int, b: int)
    requires 0 < xh && 0 <= r && d < b && 0 <= xh' < b && 0 <= r' < b && b > 0
    requires xh * b + r - d == xh' * b + r' || xh * b + r - d == xh' * b + r' - b * b
    ensures xh * b + r - d == xh' * b + r'
  {
    Less(1, xh, b);
    Less(xh', b - 1, b);
    Distribute(b, 1, b);
  }

  /** udiv_qrnnd_preinv: the high word eh of nh * di, plus nh, is corrected at most three times. */
  method UdivQrnndPreinv(h: nat, nh: nat, nl: nat, d: nat, di: nat)
    returns (q: nat, r: nat, ghost eh: nat, ghost el: nat, ghost c: int)
    requires Normal(h, d) && nh < d && nl < Base(h) && Inverse(h, d, di)
    ensures Divides(Two(nh, nl, Base(h)), d, q, r) && q < Base(h)
    ensures Two(eh, el, Base(h)) == nh * di && el < Base(h) && q == eh + nh + c && 0 <= c <= 3
  {
    hide *;
    var b := Base(h);
    NormalIs(h, d);
    ghost var e := InverseGap(h, d, di);
    var ql;
    q, ql := UmulPpmm(h, nh, di);
    eh, el := q, ql;
    TwoIs(q, ql, b);
    HighEstimate(nh, di, q, ql, b);
    PreinvEstimate(nh, nl, d, b + di, e, ql, q + nh, b);
    ghost var n := nh * b + nl;
    QuotientFits(nh, nl, d, q + nh, n - (q + nh) * d, b);
    q := q + nh;
    var xh, xl := UmulPpmm(h, q, d);
    TwoIs(xh, xl, b);
    xh, r := SubDdmmss(h, nh, nl, xh, xl);
    FirstRemainder(nh, nl, d, q, xh, r, b) by {
      TwoIs(nh, nl, b);
      TwoIs(xh, r, b);
    }
    q, r, c := Settle(h, n, d, q, xh, r);
    TwoIs(nh, nl, b);
    DividesIs(n, d, q, r);
    QuotientFits(nh, nl, d, q, r, b);
  }

  lemma FirstRemainder(nh: int, nl: int, d: int, q: int, xh: int, r: int, b: int)
    requires 0 <= xh < b && 0 <= r < b && 0 <= nh * b + nl - q * d < b + d + d && d < b
    requires nh * b + nl - q * d == xh * b + r || nh * b + nl - q * d == xh * b + r - b * b
    ensures nh * b + nl - q * d == xh * b + r
  {
    Less(xh, b - 1, b);
    Distribute(b, 1, b);
  }

  /** The corrections of udiv_qrnnd_preinv. */
  method Settle(h: nat, ghost n: int, d: nat, q0: nat, xh0: nat, r0: nat) returns (q: nat, r: nat, ghost c: int)
    requires Normal(h, d) && xh0 < Base(h) && r0 < Base(h)
    requires n - q0 * d == xh0 * Base(h) + r0 < Base(h) + d + d
    ensures Divides(n, d, q, r) && q == q0 + c && 0 <= c <= 3
  {
    hide *;
    var b := Base(h);
    NormalIs(h, d);
    q, r, c := q0, r0, 0;
    var xh := xh0;
    TwoIs(xh, r, b);
    HighIs(xh, r, b);
    if xh != 0 {
      xh, r := SubtractWord(h, xh, r, d);
      q, c := q + 1, 1;
      TwoIs(xh, r, b);
      HighIs(xh, r, b);
      if xh != 0 {
        xh, r := SubtractWord(h, xh, r, d);
        q, c := q + 1, 2;
        TwoIs(xh, r, b);
        HighIs(xh, r, b);
      }
    }
    if r >= d {
      r := r - d;
      q, c := q + 1, c + 1;
    }
    Corrected(n, d, q0, n - q0 * d, -c);
    Times(c, d);
    DividesSo(n, d, q, r);
  }

  lemma HighIs(xh: nat, r: nat, b: nat)
    requires r < b
    ensures xh == 0 ==> xh * b + r == r
    ensures xh != 0 ==> xh * b + r >= b
  {
    if xh != 0 {
      Less(1, xh, b);
    }
  }

  lemma Times(c: int, d: int)
    ensures c == 0 ==> c * d == 0
    ensures c == 1 ==> c * d == d
    ensures c == 2 ==> c * d == d + d
    ensures c == 3 ==> c * d == d + d + d
    ensures (-c) * d == -(c * d)
  {
  }

  // ---- the branch-free form ----

  /** Bitwise and. */
  function And(x: nat, y: nat): nat {
    if x == 0 || y == 0 then 0 else (if x % 2 == 1 && y % 2 == 1 then 1 else 0) + 2 * And(x / 2, y / 2)
  }

  /** A mask of ones changes nothing. */
  lemma {:induction false} AndOnes(x: nat, n: nat)
    requires x < Pow2(n)
    ensures And(x, Pow2(n) - 1) == x
    decreases n
  {
    if n > 0 && x > 0 {
      AndOnes(x / 2, n - 1);
      assert (Pow2(n) - 1) / 2 == Pow2(n - 1) - 1;
    }
  }

  /** The word shifted right as a signed number by all but one bit: all ones or all zeros. */
  function SignMask(h: nat, x: nat): (r: nat)
    requires h > 0 && x < Base(h)
    ensures r == if x + x >= Base(h) then Base(h) - 1 else 0
  {
    TopBit(h, x);
    if Shr(x, h + h - 1) == 1 then Base(h) - 1 else 0
  }

  lemma TopBit(h: nat, x: nat)
    requires h > 0 && x < Base(h)
    ensures Shr(x, h + h - 1) == if x + x >= Base(h) then 1 else 0
  {
    hide Shr, Shl, Low;
    var n := h + h - 1;
    assert Pow2(n + 1) == 2 * Pow2(n);
    if x + x >= Base(h) {
      ShlIsMul(1, n);
      SplitUnique(x, n, x - Pow2(n), 1);
    } else {
      LowSmall(x, n);
    }
  }

  /** The square of what the divisor lacks to the base. */
  lemma LackSquared(d: int, v: int, e: int, b: int)
    requires v * d == b * b - e
    ensures (v + d - b - b) * d == (b - d) * (b - d) - e
  {
    Distribute(v + d, b + b, d);
    Distribute(v, d, d);
    Distribute(b, b, d);
    Distribute(b, d, b - d);
    Distribute(b, d, b);
    Distribute(b, d, d);
  }

  lemma AdjustedGap(n1: int, n0: int, d: int, v: int, e: int, f: int, t: int, q: int, b: int)
    requires v * d == b * b - e && (t == 0 || t == 1)
    requires q * b == n1 * v - (f - n0 - (if t == 1 then v + d - b - b else 0))
    ensures (n1 * b + n0 - q * d) * b == n0 * (b - d) + n1 * e + f * d - (if t == 1 then (b - d) * (b - d) - e else 0)
  {
    var a := if t == 1 then v + d - b - b else 0;
    ScaledRemainder(n1, n0, d, v, e, f - n0 - a, q, b);
    Distribute(f - n0, a, d);
    Distribute(f, n0, d);
    Distribute(b, d, n0);
    LackSquared(d, v, e, b);
  }

  lemma ProductBelow(x: int, y: int, d: int)
    requires 0 <= x <= d - 1 && 0 <= y <= d
    ensures 0 <= x * y <= d * d - d
  {
    Less(0, x, y);
    Less(x, d - 1, y);
    Less(y, d, d - 1);
    Distribute(d, 1, d);
  }

  lemma ProductBelowBase(f: int, d: int, b: int)
    requires 0 <= f <= b - 1 && 0 <= d
    ensures 0 <= f * d <= b * d - d
  {
    Less(0, f, d);
    Less(f, b - 1, d);
    Distribute(b, 1, d);
  }

  lemma LackProduct(n0: int, d: int, b: int)
    requires 0 <= n0 && n0 + n0 < b && d < b
    ensures 0 <= n0 * (b - d) && 2 * (n0 * (b - d)) <= b * b - b * d
  {
    Less(0, n0, b - d);
    Less(n0 + n0, b, b - d);
    Distribute(n0, n0, b - d);
    Distribute(b, d, b);
  }

  lemma Quadratic(d: int, b: int)
    requires d < b <= d + d
    ensures b * b + 2 * (d * d) <= 3 * (b * d)
  {
    Less(0, d + d - b, b - d);
    Distribute(d + d, b, b - d);
    Distribute(d, d, b - d);
    Distribute(b, d, d);
    Distribute(b, d, b);
  }

  lemma AdjustedLow(n1: int, n0: int, d: int, e: int, f: int, b: int)
    requires 0 <= n1 < d < b <= d + d && 0 <= n0 && n0 + n0 < b && 0 <= e <= d && 0 <= f < b
    ensures 0 <= n0 * (b - d) + n1 * e + f * d < (d + d) * b
  {
    ProductBelow(n1, e, d);
    ProductBelowBase(f, d, b);
    LackProduct(n0, d, b);
    Quadratic(d, b);
    Distribute(d, d, b);
  }

  lemma LackProductHigh(n0: int, d: int, b: int)
    requires b <= n0 + n0 && n0 <= b - 1 && d < b <= d + d
    ensures 0 <= n0 * (b - d) - (b - d) * (b - d) <= b * d - d * d - b + d
  {
    Less(b - d, n0, b - d);
    Less(n0, b - 1, b - d);
    Distribute(b - 1, b - d, b - d);
    Distribute(b, d, d - 1);
    Distribute(d, 1, b);
    Distribute(d, 1, d);
  }

  lemma AdjustedHigh(n1: int, n0: int, d: int, e: int, f: int, b: int)
    requires 0 <= n1 < d < b <= d + d && b <= n0 + n0 && n0 < b && 0 <= e <= d && 0 <= f < b
    ensures 0 <= n0 * (b - d) + n1 * e + f * d - ((b - d) * (b - d) - e) < (d + d) * b
  {
    ProductBelow(n1, e, d);
    ProductBelowBase(f, d, b);
    LackProductHigh(n0, d, b);
    Distribute(d, d, b);
  }

  /** The estimate is the quotient or one less. */
  lemma NormEstimate(n1: int, n0: int, d: int, v: int, e: int, f: int, t: int, q: int, b: int)
    requires 0 <= n1 < d < b <= d + d && 0 <= n0 < b && 0 <= e <= d && 0 <= f < b && v * d == b * b - e
    requires t == (if n0 + n0 >= b then 1 else 0)
    requires q * b == n1 * v - (f - n0 - (if t == 1 then v + d - b - b else 0))
    ensures 0 <= n1 * b + n0 - q * d < d + d
  {
    AdjustedGap(n1, n0, d, v, e, f, t, q, b);
    if t == 1 {
      AdjustedHigh(n1, n0, d, e, f, b);
    } else {
      AdjustedLow(n1, n0, d, e, f, b);
    }
    Between(n1 * b + n0 - q * d, d + d, b);
  }

  /** The high word of di times n2 or n2 + 1, adjusted, is the estimate less n2; nothing overflows on the way. */
  method NormGuess(h: nat, n2: nat, n10: nat, d: nat, di: nat) returns (xh: nat, ghost f: nat)
    requires h > 0 && Normal(h, d) && n2 < d && n10 < Base(h) && di < Base(h)
    ensures xh < Base(h) && f < Base(h)
    ensures var b, t := Base(h), if n10 + n10 >= Base(h) then 1 else 0;
      xh * b + f == di * (n2 + t) + n10 + (if t == 1 then d - b else 0)
  {
    hide *;
    var b := Base(h);
    NormalIs(h, d);
    var n1 := SignMask(h, n10);
    AndMask(d, n1, h);
    var nadj := Plus(n10, And(n1, d), b);
    var xl;
    xh, xl := UmulPpmm(h, di, Minus(n2, n1, b));
    TwoIs(xh, xl, b);
    ghost var x0 := xh * b + xl;
    ProductRange(di, Minus(n2, n1, b), b);
    ghost var ah, al := xh, xl;
    xh, xl := AddSsaaaa(h, xh, xl, 0, nadj);
    NoCarry(ah, al, nadj, xh, xl, b) by {
      TwoIs(ah, al, b);
      TwoIs(0, nadj, b);
      TwoIs(xh, xl, b);
    }
    f := xl;
  }

  lemma AndMask(d: nat, m: nat, h: nat)
    requires d < Base(h) && (m == 0 || m == Base(h) - 1)
    ensures And(m, d) == if m == 0 then 0 else d
    ensures And(d, m) == if m == 0 then 0 else d
  {
    hide Pow2;
    if m != 0 {
      AndOnes(d, h + h);
      AndSwap(m, d);
    } else {
      AndSwap(m, d);
    }
  }

  lemma {:induction false} AndSwap(x: nat, y: nat)
    ensures And(x, y) == And(y, x)
  {
    if x > 0 && y > 0 {
      AndSwap(x / 2, y / 2);
    }
  }

  lemma NoCarry(ah: int, al: int, n: int, sh: int, sl: int, b: int)
    requires ah * b + al <= (b - 1) * (b - 1) && 0 <= n < b && 0 <= sh && 0 <= sl && b > 0
    requires ah * b + al + n == sh * b + sl || ah * b + al + n == sh * b + sl + b * b
    ensures ah * b + al + n == sh * b + sl
  {
    Less(0, sh, b);
    Distribute(b, 1, b - 1);
    Distribute(b, 1, b);
  }

  /** From the guess to the bound on what it leaves. */
  lemma NormGuessRight(h: nat, n2: nat, n10: nat, d: nat, di: nat, xh: nat, f: nat)
    requires Normal(h, d) && n2 < d && n10 < Base(h) && Inverse(h, d, di) && f < Base(h)
    requires var b, t := Base(h), if n10 + n10 >= Base(h) then 1 else 0;
      xh * b + f == di * (n2 + t) + n10 + (if t == 1 then d - b else 0)
    ensures 0 <= n2 * Base(h) + n10 - (n2 + xh) * d < d + d && n2 + xh < Base(h)
  {
    hide *;
    var b := Base(h);
    NormalIs(h, d);
    var t := if n10 + n10 >= b then 1 else 0;
    var e := InverseGap(h, d, di);
    Distribute(n2, xh, b);
    Distribute(b, di, n2);
    Distribute(n2, t, di);
    Times(t, di);
    NormEstimate(n2, n10, d, b + di, e, f, t, n2 + xh, b);
    QuotientFits(n2, n10, d, n2 + xh, n2 * b + n10 - (n2 + xh) * d, b);
  }

  /** One's complement of a word. */
  function Not(x: nat, b: nat): (r: nat)
    requires x < b
    ensures r == b - 1 - x
  {
    b - 1 - x
  }

  /** Adding the complement's product wraps to the divisor in the high word, or one less. */
  lemma WrapAround(n: int, d: int, q: int, q1: int, xh: int, xl: int, b: int)
    requires 0 < d < b && 0 <= n - q * d < d + d && q1 == b - 1 - q && 0 <= xh < b && 0 <= xl < b
    requires n + q1 * d == xh * b + xl || n + q1 * d == xh * b + xl + b * b
    ensures n - q * d >= d ==> xh == d && xl == n - (q + 1) * d
    ensures n - q * d < d ==> xh == d - 1 && xl == n - (q + 1) * d + b
  {
    Distribute(b - 1, q, d);
    Distribute(b, 1, d);
    Distribute(q, 1, d);
    var y := n - (q + 1) * d;
    assert n + q1 * d == b * d + y;
    Less(d, b - 1, b);
    Distribute(b, 1, b);
    Less(0, xh, b);
    if y >= 0 {
      OneWord(xh, xl, d, y, b);
    } else {
      Distribute(d, 1, b);
      OneWord(xh, xl, d - 1, y + b, b);
    }
  }

  lemma OneWord(xh: int, xl: int, yh: int, yl: int, b: int)
    requires 0 <= xl < b && 0 <= yl < b && (xh * b + xl == yh * b + yl || yh * b + yl == xh * b + xl + b * b) && 0 <= xh
    requires yh <= b - 1
    ensures xh == yh && xl == yl
  {
    Less(yh, b - 1, b);
    Distribute(b, 1, b);
    Less(0, xh, b);
    if xh < yh {
      Less(xh + 1, yh, b);
      Distribute(xh, 1, b);
    }
    if yh < xh {
      Less(yh + 1, xh, b);
      Distribute(yh, 1, b);
    }
  }

  /** The word operations that turn the wrapped sum into quotient and remainder. */
  method Unwrap(h: nat, ghost n: int, d: nat, ghost qh: nat, q1: nat, xh0: nat, xl: nat) returns (q: nat, r: nat)
    requires d < Base(h) && qh < Base(h) && q1 == Base(h) - 1 - qh && xh0 < Base(h) && xl < Base(h) && 0 < d
    requires 0 <= n - qh * d < d + d && (n - qh * d >= d ==> qh + 1 < Base(h))
    requires n - qh * d >= d ==> xh0 == d && xl == n - (qh + 1) * d
    requires n - qh * d < d ==> xh0 == d - 1 && xl == n - (qh + 1) * d + Base(h)
    ensures Divides(n, d, q, r) && q < Base(h)
  {
    hide *;
    var b := Base(h);
    Distribute(qh, 1, d);
    var xh := Minus(xh0, d, b);
    AndMask(d, xh, h);
    r := Plus(xl, And(d, xh), b);
    q := Minus(xh, q1, b);
    DividesSo(n, d, q, r);
  }

  /** udiv_qrnnd_preinv2norm: without a branch, the same quotient and remainder. */
  method UdivQrnndPreinv2norm(h: nat, nh: nat, nl: nat, d: nat, di: nat) returns (q: nat, r: nat)
    requires h > 0 && Normal(h, d) && nh < d && nl < Base(h) && Inverse(h, d, di)
    ensures Divides(Two(nh, nl, Base(h)), d, q, r) && q < Base(h)
  {
    hide *;
    var b := Base(h);
    NormalIs(h, d);
    ghost var e := InverseGap(h, d, di);
    var xh;
    ghost var f;
    xh, f := NormGuess(h, nh, nl, d, di);
    NormGuessRight(h, nh, nl, d, di, xh, f);
    var q1 := Not(Plus(nh, xh, b), b);
    var xl;
    xh, xl := UmulPpmm(h, q1, d);
    ghost var ah, al := xh, xl;
    xh, xl := AddSsaaaa(h, xh, xl, nh, nl);
    TwoIs(ah, al, b);
    TwoIs(nh, nl, b);
    TwoIs(xh, xl, b);
    ghost var n, qh := nh * b + nl, b - 1 - q1;
    WrapAround(n, d, qh, q1, xh, xl, b);
    if n - qh * d >= d {
      Distribute(qh, 1, d);
      QuotientFits(nh, nl, d, qh + 1, n - (qh + 1) * d, b);
    }
    q, r := Unwrap(h, n, d, qh, q1, xh, xl);
  }

  /** Quotient and remainder are unique, so that all three divisions agree. */
  lemma DivisionUnique(n: int, d: int, q: int, r: int, q': int, r': int)
    requires Divides(n, d, q, r) && Divides(n, d, q', r')
    ensures q == q' && r == r'
  {
    if q < q' {
      Less(q + 1, q', d);
      Distribute(q, 1, d);
    }
    if q' < q {
      Less(q' + 1, q, d);
      Distribute(q', 1, d);
    }
  }
}
