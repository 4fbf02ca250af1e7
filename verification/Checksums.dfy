/** adler32.c and crc32.c: the fast forms of two checksums. */
module Checksums {
  import opened Arith
  import opened Stream
  import opened HashChains

  // ---- Adler-32 ----

  const BASE: nat := 65521
  const NMAX: nat := 5552

  /** Section 8.2 of RFC 1950: both sums modulo BASE after every byte. */
  datatype Sums = Sums(s1: nat, s2: nat)

  function AdlerByte(a: Sums, b: byte): Sums {
    Sums((a.s1 + b) % BASE, (a.s2 + (a.s1 + b) % BASE) % BASE)
  }

  function Adler(a: Sums, buf: seq<byte>): Sums {
    if buf == [] then a else AdlerByte(Adler(a, buf[..|buf| - 1]), buf[|buf| - 1])
  }

  function Reduced(a: Sums): Sums { Sums(a.s1 % BASE, a.s2 % BASE) }

  lemma AdlerMore(a: Sums, buf: seq<byte>, i: nat)
    requires i < |buf|
    ensures Adler(a, buf[..i + 1]) == AdlerByte(Adler(a, buf[..i]), buf[i])
  {
    assert buf[..i + 1][..i] == buf[..i];
  }

  /** Reducing late makes no difference. */
  lemma LateByte(a: Sums, b: byte)
    ensures Reduced(Sums(a.s1 + b, a.s2 + (a.s1 + b))) == AdlerByte(Reduced(a), b)
  {
  }

  /** The largest sums that n bytes can lead to from any two 16-bit halves. */
  function Most(n: nat): Sums {
    if n == 0 then Sums(0xffff, 0xffff) else Sums(Most(n - 1).s1 + 255, Most(n - 1).s2 + Most(n - 1).s1 + 255)
  }

  lemma {:induction false} MostIs(n: nat)
    ensures Most(n).s1 == 0xffff + 255 * n
    ensures 2 * Most(n).s2 == 2 * 0xffff + 2 * 0xffff * n + 255 * (n * n) + 255 * n
  {
    if n > 0 {
      MostIs(n - 1);
      assert n * n == (n - 1) * (n - 1) + 2 * n - 1;
    }
  }

  lemma {:induction false} MostGrows(m: nat, n: nat)
    requires m <= n
    ensures Most(m).s1 <= Most(n).s1 && Most(m).s2 <= Most(n).s2
  {
    if m < n {
      MostGrows(m, n - 1);
    }
  }

  /** NMAX is the largest number of bytes between reductions that never overflows 32 bits. */
  lemma NoOverflow(n: nat)
    ensures n <= NMAX <==> Most(n).s1 < 0x1_0000_0000 && Most(n).s2 < 0x1_0000_0000
  {
    MostIs(NMAX);
    MostIs(NMAX + 1);
    if n <= NMAX {
      MostGrows(n, NMAX);
    } else {
      MostGrows(NMAX + 1, n);
    }
  }

  type word = x: nat | x < 0x1_0000_0000

  /** One byte: s1 += b; s2 += s1. */
  method AdlerOne(s1: word, s2: word, b: byte, ghost n: nat) returns (t1: word, t2: word)
    requires n < NMAX && s1 <= Most(n).s1 && s2 <= Most(n).s2
    ensures t1 <= Most(n + 1).s1 && t2 <= Most(n + 1).s2
    ensures Reduced(Sums(t1, t2)) == AdlerByte(Reduced(Sums(s1, s2)), b)
  {
    NoOverflow(n + 1);
    LateByte(Sums(s1, s2), b);
    t1 := s1 + b;
    t2 := s2 + t1;
  }

  /** At most NMAX bytes, sixteen at a time as long as there are so many. */
  method AdlerStretch(s1: word, s2: word, buf: seq<byte>, i: nat, k: nat, ghost a: Sums) returns (t1: word, t2: word)
    requires i + k <= |buf| && k <= NMAX && s1 <= 0xffff && s2 <= 0xffff && Reduced(Sums(s1, s2)) == Adler(a, buf[..i])
    ensures Reduced(Sums(t1, t2)) == Adler(a, buf[..i + k])
  {
    hide Adler, AdlerByte, Reduced, Most;
    t1, t2 := s1, s2;
    var j := 0;
    MostIs(0);
    while k - j >= 16
      invariant j <= k && t1 <= Most(j).s1 && t2 <= Most(j).s2 && Reduced(Sums(t1, t2)) == Adler(a, buf[..i + j])
      decreases k - j
    {
      var n := 0;
      ghost var start := j;
      while n < 16
        invariant n <= 16 && j == start + n && start + 16 <= k && t1 <= Most(j).s1 && t2 <= Most(j).s2
        invariant Reduced(Sums(t1, t2)) == Adler(a, buf[..i + j])
      {
        AdlerMore(a, buf, i + j);
        t1, t2 := AdlerOne(t1, t2, buf[i + j], j);
        j := j + 1;
        n := n + 1;
      }
    }
    while j < k
      invariant j <= k && t1 <= Most(j).s1 && t2 <= Most(j).s2 && Reduced(Sums(t1, t2)) == Adler(a, buf[..i + j])
    {
      AdlerMore(a, buf, i + j);
      t1, t2 := AdlerOne(t1, t2, buf[i + j], j);
      j := j + 1;
    }
  }

  lemma ReducedTwice(s1: nat, s2: nat)
    ensures s1 % BASE <= 0xffff && s2 % BASE <= 0xffff
    ensures Reduced(Sums(s1 % BASE, s2 % BASE)) == Reduced(Sums(s1, s2)) == Sums(s1 % BASE, s2 % BASE)
  {
  }

  lemma AdlerNone(a: Sums)
    ensures Adler(a, []) == a
  {
  }

  function Packed(a: Sums): nat { a.s2 * 0x1_0000 + a.s1 }

  /** The two halves of a checksum. */
  function Halves(adler: word): Sums { Sums(adler % 0x1_0000, adler / 0x1_0000) }

  /** The checksum of buf continued from adler, its sums reduced after every byte; with no bytes nothing is reduced. */
  function Adler32Of(adler: word, buf: seq<byte>): (r: word)
  {
    if buf == [] then adler
    else
      AdlerBelow(Reduced(Halves(adler)), buf);
      Packed(Adler(Reduced(Halves(adler)), buf))
  }

  /** After a byte both sums are reduced, so that they fit into halves. */
  lemma AdlerBelow(a: Sums, buf: seq<byte>)
    requires buf != []
    ensures Reduced(Adler(a, buf)) == Adler(a, buf)
    ensures Packed(Adler(a, buf)) < 0x1_0000_0000 && Halves(Packed(Adler(a, buf))) == Adler(a, buf)
  {
    hide *;
    assert buf[..|buf| - 1] + [buf[|buf| - 1]] == buf;
    AdlerLast(a, buf[..|buf| - 1], buf[|buf| - 1]);
    ByteBelow(Adler(a, buf[..|buf| - 1]), buf[|buf| - 1]);
    PackedHalves(Adler(a, buf));
  }

  lemma ByteBelow(a: Sums, b: byte)
    ensures AdlerByte(a, b).s1 < BASE && AdlerByte(a, b).s2 < BASE
  {
  }

  lemma PackedHalves(a: Sums)
    requires a.s1 < BASE && a.s2 < BASE
    ensures Reduced(a) == a && Packed(a) < 0x1_0000_0000 && Halves(Packed(a)) == a
  {
  }

  // ---- the two halves as plain sums ----

  function Sum(buf: seq<byte>): nat { if buf == [] then 0 else buf[0] + Sum(buf[1..]) }

  /** Every byte counts as often as there are bytes from it on. */
  function Weighted(buf: seq<byte>): nat { if buf == [] then 0 else |buf| * buf[0] + Weighted(buf[1..]) }

  lemma {:induction false} SumMore(buf: seq<byte>, b: byte)
    ensures Sum(buf + [b]) == Sum(buf) + b && Weighted(buf + [b]) == Weighted(buf) + Sum(buf) + b
  {
    if buf == [] {
      assert [b][1..] == [];
    } else {
      SumMore(buf[1..], b);
      assert (buf + [b])[1..] == buf[1..] + [b];
      assert (|buf| + 1) * buf[0] == |buf| * buf[0] + buf[0];
    }
  }

  lemma {:induction false} AdlerSums(a: Sums, buf: seq<byte>)
    requires a.s1 < BASE && a.s2 < BASE
    ensures Adler(a, buf).s1 == (a.s1 + Sum(buf)) % BASE
    ensures Adler(a, buf).s2 == (a.s2 + |buf| * a.s1 + Weighted(buf)) % BASE
    decreases |buf|
  {
    hide *;
    if buf == [] {
      SumNone();
      AdlerNone(a);
      Already(a.s1, a.s2);
    } else {
      var t, b := buf[..|buf| - 1], buf[|buf| - 1];
      assert t + [b] == buf;
      AdlerSums(a, t);
      SumMore(t, b);
      AdlerLast(a, t, b);
      ByteSums(Adler(a, t), a.s1 + Sum(t), a.s2 + |t| * a.s1 + Weighted(t), b);
      OnceMore(|t|, a.s1);
    }
  }

  lemma Already(x: nat, y: nat)
    requires x < BASE && y < BASE
    ensures x == (x + 0) % BASE && y == (y + 0 * x + 0) % BASE
  {
  }

  lemma OnceMore(n: nat, x: nat)
    ensures (n + 1) * x == n * x + x
  {
  }

  lemma AdlerLast(a: Sums, t: seq<byte>, b: byte)
    ensures Adler(a, t + [b]) == AdlerByte(Adler(a, t), b)
  {
    assert (t + [b])[..|t|] == t;
  }

  lemma ByteSums(a: Sums, x: nat, y: nat, b: byte)
    requires a.s1 == x % BASE && a.s2 == y % BASE
    ensures AdlerByte(a, b) == Sums((x + b) % BASE, (y + x + b) % BASE)
  {
    AddedMod(x, b);
    AddedMod(y, (x + b) % BASE);
    AddedMod(x + b, y);
  }

  lemma SumNone()
    ensures Sum([]) == 0 && Weighted([]) == 0
  {
  }

  lemma AddedMod(x: nat, y: nat)
    ensures (x % BASE + y) % BASE == (x + y) % BASE
  {
  }

  lemma {:induction false} TimesMod(n: nat, x: nat, y: nat)
    ensures (y + n * (x % BASE)) % BASE == (y + n * x) % BASE
  {
    if n > 0 {
      assert n * x == (n - 1) * x + x && n * (x % BASE) == (n - 1) * (x % BASE) + x % BASE;
      TimesMod(n - 1, x, y + x % BASE);
      AddedMod(x, y + (n - 1) * x);
    }
  }

  /**
   * The low half of the checksum is the low half before plus all bytes, modulo 65521; the high half
   * is the high half before plus the low half before for each byte, plus the weighted bytes.
   */
  lemma AdlerIs(adler: word, buf: seq<byte>)
    requires buf != []
    ensures Adler32Of(adler, buf) % 65536 == (adler % 65536 + Sum(buf)) % 65521
    ensures Adler32Of(adler, buf) / 65536 == (adler / 65536 + |buf| * (adler % 65536) + Weighted(buf)) % 65521
  {
    hide Adler, Sum, Weighted, Packed, Halves, Reduced;
    var a := Reduced(Halves(adler));
    HalvesAre(adler);
    AdlerBelow(a, buf);
    AdlerSums(a, buf);
    PackedIs(Adler(a, buf));
    HalfSums(|buf|, adler % 65536, adler / 65536, Sum(buf), Weighted(buf));
  }

  lemma HalvesAre(adler: word)
    ensures Reduced(Halves(adler)) == Sums(adler % 65536 % BASE, adler / 65536 % BASE)
  {
  }

  lemma PackedIs(a: Sums)
    requires a.s1 < 65536
    ensures Packed(a) % 65536 == a.s1 && Packed(a) / 65536 == a.s2
  {
  }

  lemma HalfSums(n: nat, x: nat, y: nat, s: nat, w: nat)
    ensures (x % BASE + s) % BASE == (x + s) % BASE
    ensures (y % BASE + n * (x % BASE) + w) % BASE == (y + n * x + w) % BASE
  {
    AddedMod(x, s);
    var nx, nr := n * x, n * (x % BASE);
    TimesMod(n, x, y % BASE + w);
    AddedMod(y, nx + w);
  }

  /** adler32: reducing only every NMAX bytes never overflows 32 bits and makes no difference. */
  method Adler32(adler: word, buf: seq<byte>) returns (r: word)
    ensures r == Adler32Of(adler, buf) && (buf == [] ==> r == adler)
    ensures buf != [] ==> r % 65536 == (adler % 65536 + Sum(buf)) % 65521
    ensures buf != [] ==> r / 65536 == (adler / 65536 + |buf| * (adler % 65536) + Weighted(buf)) % 65521
  {
    hide Adler, Reduced, Sum, Weighted;
    var s1: word, s2: word := adler % 0x1_0000, adler / 0x1_0000;
    ghost var a := Reduced(Sums(s1, s2));
    var i := 0;
    AdlerNone(a);
    assert buf[..0] == [];
    while i < |buf|
      invariant i <= |buf| && s1 <= 0xffff && s2 <= 0xffff && Reduced(Sums(s1, s2)) == Adler(a, buf[..i])
      invariant i == 0 ==> s1 == adler % 0x1_0000 && s2 == adler / 0x1_0000
      invariant i > 0 ==> Adler(a, buf[..i]) == Sums(s1, s2)
    {
      var k := if |buf| - i < NMAX then |buf| - i else NMAX;
      s1, s2 := AdlerStretch(s1, s2, buf, i, k, a);
      i := i + k;
      ReducedTwice(s1, s2);
      s1, s2 := s1 % BASE, s2 % BASE;
    }
    assert buf[..i] == buf;
    r := s2 * 0x1_0000 + s1;
    if buf != [] {
      AdlerIs(adler, buf);
    }
  }

  /** The sums of two parts one after the other. */
  lemma {:induction false} AdlerTwo(a: Sums, x: seq<byte>, y: seq<byte>)
    ensures Adler(a, x + y) == Adler(Adler(a, x), y)
    decreases |y|
  {
    hide AdlerByte;
    if y == [] {
      assert x + y == x;
    } else {
      AdlerTwo(a, x, y[..|y| - 1]);
      assert (x + y)[..|x + y| - 1] == x + y[..|y| - 1];
    }
  }

  /** The checksum of a whole is that of the second part continued from the first. */
  lemma AdlerCompose(adler: word, x: seq<byte>, y: seq<byte>)
    ensures Adler32Of(adler, x + y) == Adler32Of(Adler32Of(adler, x), y)
  {
    hide Adler, Reduced, Packed, Halves;
    if x == [] {
      assert x + y == y;
    } else if y == [] {
      assert x + y == x;
    } else {
      var a := Reduced(Halves(adler));
      AdlerTwo(a, x, y);
      AdlerBelow(a, x);
    }
  }

  // ---- CRC-32 ----

  /** The polynomial x^32 + ... without its highest term, lowest powers in the highest bits. */
  const POLY: nat := 0xedb88320

  /** Its terms but for x^32, as section 8 of RFC 1952 and make_crc_table give them. */
  const TERMS: seq<nat> := [0, 1, 2, 4, 5, 7, 8, 10, 11, 12, 16, 22, 23, 26]

  /** The pattern of the terms of a polynomial, lowest powers in the highest bits. */
  function Pattern(terms: seq<nat>): nat
    requires forall i | 0 <= i < |terms| :: terms[i] <= 31
  {
    if terms == [] then 0 else Pattern(terms[..|terms| - 1]) + Pow2(31 - terms[|terms| - 1])
  }

  lemma {:induction false} PatternMore(n: nat)
    requires n < |TERMS|
    ensures Pattern(TERMS[..n + 1]) == Pattern(TERMS[..n]) + Pow2(31 - TERMS[n])
  {
    hide Pow2;
    assert TERMS[..n + 1][..n] == TERMS[..n];
  }

  lemma HighPowers()
    ensures Pow2(5) == 32 && Pow2(8) == 256 && Pow2(9) == 512 && Pow2(15) == 0x8000 && Pow2(19) == 0x8_0000
    ensures Pow2(20) == 0x10_0000 && Pow2(21) == 0x20_0000 && Pow2(23) == 0x80_0000 && Pow2(24) == 0x100_0000
    ensures Pow2(26) == 0x400_0000 && Pow2(27) == 0x800_0000 && Pow2(29) == 0x2000_0000 && Pow2(30) == 0x4000_0000
    ensures Pow2(31) == 0x8000_0000 && Pow2(32) == 0x1_0000_0000
  {
    assert Pow2(10) == 1024;
    assert Pow2(15) == 0x8000;
  }

  /** The pattern that make_crc_table puts together is the one used. */
  lemma PolyIs()
    ensures Pattern(TERMS) == POLY
  {
    hide Pow2, Pattern;
    HighPowers();
    PatternMore(0); PatternMore(1); PatternMore(2); PatternMore(3); PatternMore(4); PatternMore(5); PatternMore(6);
    PatternMore(7); PatternMore(8); PatternMore(9); PatternMore(10); PatternMore(11); PatternMore(12); PatternMore(13);
    PatternNone();
    assert TERMS[..14] == TERMS && TERMS[..0] == [];
  }

  lemma PatternNone()
    ensures Pattern([]) == 0
  {
  }

  /** One step of the shift register. */
  function CrcStep(c: nat): nat { if c % 2 == 1 then Xor(POLY, c / 2) else c / 2 }

  function CrcSteps(c: nat, k: nat): nat {
    if k == 0 then c else CrcStep(CrcSteps(c, k - 1))
  }

  /** The register after a byte: its bits are added, lowest first, and the register shifted eight times. */
  function CrcByte(c: nat, b: byte): nat { CrcSteps(Xor(c, b), 8) }

  function Crc(c: nat, buf: seq<byte>): nat {
    if buf == [] then c else CrcByte(Crc(c, buf[..|buf| - 1]), buf[|buf| - 1])
  }

  lemma {:induction false} XorSwap(x: nat, y: nat)
    ensures Xor(x, y) == Xor(y, x)
    decreases x + y
  {
    if x > 0 && y > 0 {
      XorSwap(x / 2, y / 2);
    }
  }

  lemma {:induction false} XorGroup(x: nat, y: nat, z: nat)
    ensures Xor(Xor(x, y), z) == Xor(x, Xor(y, z))
    decreases x + y + z
  {
    if x > 0 && y > 0 && z > 0 {
      XorGroup(x / 2, y / 2, z / 2);
      XorHalf(x, y);
      XorHalf(y, z);
      XorHalf(Xor(x, y), z);
      XorHalf(x, Xor(y, z));
    } else {
      XorZeros(x);
      XorZeros(y);
      XorZeros(Xor(x, y));
    }
  }

  lemma XorZeros(x: nat)
    ensures Xor(x, 0) == x && Xor(0, x) == x
  {
  }

  lemma {:induction false} XorSelf(x: nat)
    ensures Xor(x, x) == 0
  {
    if x > 0 {
      XorSelf(x / 2);
    }
  }

  /** The two terms that cancel when both registers shift out a one. */
  lemma XorCancel(p: nat, x: nat, y: nat)
    ensures Xor(Xor(p, x), Xor(p, y)) == Xor(x, y)
    ensures Xor(Xor(p, x), y) == Xor(p, Xor(x, y))
    ensures Xor(x, Xor(p, y)) == Xor(p, Xor(x, y))
  {
    hide Xor;
    XorGroup(p, x, Xor(p, y));
    XorGroup(x, p, y);
    XorSwap(x, p);
    XorGroup(p, x, y);
    XorGroup(p, p, Xor(x, y));
    XorSelf(p);
    XorZeros(Xor(x, y));
  }

  /** A step is linear. */
  lemma StepLinear(x: nat, y: nat)
    ensures CrcStep(Xor(x, y)) == Xor(CrcStep(x), CrcStep(y))
  {
    hide Xor;
    XorHalf(x, y);
    XorCancel(POLY, x / 2, y / 2);
  }

  lemma {:induction false} StepsLinear(x: nat, y: nat, k: nat)
    ensures CrcSteps(Xor(x, y), k) == Xor(CrcSteps(x, k), CrcSteps(y, k))
  {
    hide Xor, CrcStep;
    if k > 0 {
      StepsLinear(x, y, k - 1);
      StepLinear(CrcSteps(x, k - 1), CrcSteps(y, k - 1));
    }
  }

  /** Shifting out zeros only shifts. */
  lemma {:induction false} StepsShift(y: nat, k: nat)
    ensures CrcSteps(Shl(y, k), k) == y
  {
    if k > 0 {
      StepsShiftFirst(Shl(y, k), k);
      HalfDouble(y, k);
      StepsShift(y, k - 1);
    }
  }

  /** The first of k steps. */
  lemma {:induction false} StepsShiftFirst(c: nat, k: nat)
    requires k > 0
    ensures CrcSteps(c, k) == CrcSteps(CrcStep(c), k - 1)
  {
    if k > 1 {
      StepsShiftFirst(c, k - 1);
    }
  }

  /** The low bits of a number and the rest, exclusive-or-ed, are the number. */
  lemma {:induction false} XorSplit(x: nat, k: nat)
    ensures Xor(Low(x, k), Shl(Shr(x, k), k)) == x
    decreases k
  {
    if k > 0 {
      XorSplit(x / 2, k - 1);
      var a, b := Low(x, k), Shl(Shr(x, k), k);
      XorHalf(a, b);
      LowParts(x, k);
      HalfDouble(Shr(x, k), k);
    } else {
      XorZeros(x);
    }
  }

  lemma LowParts(x: nat, k: nat)
    requires k > 0
    ensures Low(x, k) % 2 == x % 2 && Low(x, k) / 2 == Low(x / 2, k - 1) && Shr(x, k) == Shr(x / 2, k - 1)
  {
  }

  /** Table lookup: eight steps are the table's entry for the low byte, added to the rest shifted. */
  lemma TableStep(x: nat)
    ensures CrcSteps(x, 8) == Xor(CrcSteps(Low(x, 8), 8), Shr(x, 8))
  {
    hide Xor, CrcSteps, Low, Shl, Shr;
    XorSplit(x, 8);
    StepsLinear(Low(x, 8), Shl(Shr(x, 8), 8), 8);
    StepsShift(Shr(x, 8), 8);
  }

  /** The byte only touches the low eight bits. */
  lemma {:induction false} XorHigh(c: nat, b: nat, k: nat)
    requires b < Pow2(k)
    ensures Shr(Xor(c, b), k) == Shr(c, k)
    decreases k
  {
    if k > 0 {
      XorHalf(c, b);
      XorHigh(c / 2, b / 2, k - 1);
    } else {
      XorZeros(c);
    }
  }

  /** The table holds the register after each single byte. */
  ghost predicate TableOK(table: array<nat>)
    reads table
  {
    table.Length == 256 && forall n | 0 <= n < 256 :: table[n] == CrcSteps(n, 8)
  }

  /** make_crc_table */
  method MakeCrcTable() returns (table: array<nat>)
    ensures fresh(table) && TableOK(table)
  {
    hide CrcSteps, Xor, Pattern;
    var poly, i := 0, 0;
    PatternNone();
    assert TERMS[..0] == [];
    while i < |TERMS|
      invariant i <= |TERMS| && poly == Pattern(TERMS[..i])
    {
      PatternMore(i);
      poly := poly + Pow2(31 - TERMS[i]);
      i := i + 1;
    }
    assert TERMS[..i] == TERMS;
    PolyIs();
    table := new nat[256](_ => 0);
    var n := 0;
    while n < 256
      invariant n <= 256 && forall m | 0 <= m < n :: table[m] == CrcSteps(m, 8)
    {
      var c, k := n, 0;
      StepsNone(n);
      while k < 8
        invariant k <= 8 && c == CrcSteps(n, k) && forall m | 0 <= m < n :: table[m] == CrcSteps(m, 8)
      {
        StepsOne(n, k);
        c := if c % 2 == 1 then Xor(poly, c / 2) else c / 2;
        k := k + 1;
      }
      table[n] := c;
      n := n + 1;
    }
  }

  lemma StepsNone(n: nat)
    ensures CrcSteps(n, 0) == n
  {
  }

  lemma StepsOne(n: nat, k: nat)
    ensures CrcSteps(n, k + 1) == CrcStep(CrcSteps(n, k))
  {
  }

  /** DO1: one byte by the table. */
  method CrcOne(table: array<nat>, c: nat, b: byte) returns (r: nat)
    requires TableOK(table)
    ensures r == CrcByte(c, b)
  {
    hide CrcSteps, Xor, Low, Shr;
    EightBits();
    TableStep(Xor(c, b));
    XorHigh(c, b, 8);
    LowByte(Xor(c, b));
    r := Xor(table[Low(Xor(c, b), 8)], Shr(c, 8));
  }

  lemma LowByte(x: nat)
    ensures Low(x, 8) < 256
  {
    EightBits();
  }

  lemma CrcMore(c: nat, buf: seq<byte>, i: nat)
    requires i < |buf|
    ensures Crc(c, buf[..i + 1]) == CrcByte(Crc(c, buf[..i]), buf[i])
  {
    assert buf[..i + 1][..i] == buf[..i];
  }

  const ONES: nat := 0xffff_ffff

  /** crc32: eight bytes at a time by the table, as the shift register would bit by bit. */
  method Crc32(crc: nat, buf: seq<byte>) returns (r: nat)
    ensures r == Xor(Crc(Xor(crc, 0xffff_ffff), buf), 0xffff_ffff)
  {
    hide Crc, CrcByte, Xor;
    var table := MakeCrcTable();
    var c := Xor(crc, ONES);
    ghost var c0 := c;
    var i := 0;
    CrcNone(c);
    assert buf[..0] == [];
    while |buf| - i >= 8
      invariant i <= |buf| && c == Crc(c0, buf[..i]) && TableOK(table)
      decreases |buf| - i
    {
      var n := 0;
      ghost var start := i;
      while n < 8
        invariant n <= 8 && i == start + n && start + 8 <= |buf| && c == Crc(c0, buf[..i]) && TableOK(table)
      {
        CrcMore(c0, buf, i);
        c := CrcOne(table, c, buf[i]);
        i := i + 1;
        n := n + 1;
      }
    }
    while i < |buf|
      invariant i <= |buf| && c == Crc(c0, buf[..i]) && TableOK(table)
    {
      CrcMore(c0, buf, i);
      c := CrcOne(table, c, buf[i]);
      i := i + 1;
    }
    assert buf[..i] == buf;
    r := Xor(c, ONES);
  }

  lemma CrcNone(c: nat)
    ensures Crc(c, []) == c
  {
  }

  lemma {:induction false} CrcTwo(c: nat, x: seq<byte>, y: seq<byte>)
    ensures Crc(c, x + y) == Crc(Crc(c, x), y)
    decreases |y|
  {
    hide CrcByte;
    if y == [] {
      assert x + y == x;
    } else {
      CrcTwo(c, x, y[..|y| - 1]);
      assert (x + y)[..|x + y| - 1] == x + y[..|y| - 1];
    }
  }

  /** What crc32 returns. */
  function Crc32Of(crc: nat, buf: seq<byte>): nat { Xor(Crc(Xor(crc, ONES), buf), ONES) }

  /** The checksum of a whole is that of the second part continued from the first. */
  lemma CrcCompose(crc: nat, x: seq<byte>, y: seq<byte>)
    ensures Crc32Of(crc, x + y) == Crc32Of(Crc32Of(crc, x), y)
  {
    hide Xor, Crc;
    var c := Crc(Xor(crc, ONES), x);
    CrcTwo(Xor(crc, ONES), x, y);
    XorGroup(c, ONES, ONES);
    XorSelf(ONES);
    XorZeros(c);
  }
}
