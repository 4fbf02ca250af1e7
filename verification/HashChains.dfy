/** The hash of deflate.c and the invariant of its head and prev tables. */
module HashChains {
  import opened Arith
  import opened Stream

  datatype Strategy = DEFAULT | FILTERED | HUFFMAN_ONLY

  /** What deflateInit2 fixes for a stream. */
  datatype Conf = Conf(wbits: nat, wsize: nat, bits: nat, hsize: nat, litbuf: nat,
                       lazy: nat, good: nat, nice: nat, chain: nat, strategy: Strategy)
  {
    predicate Ok() {
      && 9 <= wbits <= 15 && wsize == Pow2(wbits) && 8 <= bits <= 16 && hsize == Pow2(bits)
      && litbuf >= 128 && chain >= 4
    }

    function Shift(): nat { (bits + 2) / 3 }
  }

  const MIN_LOOKAHEAD: nat := 262

  /** Pos: a window index kept in 16 bits. */
  type Pos = x: nat | x < 0x1_0000

  lemma Sizes(c: Conf)
    requires c.Ok()
    ensures 512 <= c.wsize <= 32768 && 256 <= c.hsize <= 65536
  {
    assert Pow2(8) == 256 && Pow2(9) == 512;
    assert Pow2(15) == 32768 && Pow2(16) == 65536 by {
      assert Pow2(12) == 4096;
    }
    Pow2Mono(9, c.wbits);
    Pow2Mono(c.wbits, 15);
    Pow2Mono(8, c.bits);
    Pow2Mono(c.bits, 16);
  }

  // ---- the rolling hash ----

  function Xor(x: nat, y: nat): nat
    decreases x + y
  {
    if x == 0 then y else if y == 0 then x
    else (if x % 2 == y % 2 then 0 else 1) + 2 * Xor(x / 2, y / 2)
  }

  lemma XorHalf(x: nat, y: nat)
    ensures Xor(x, y) / 2 == Xor(x / 2, y / 2) && Xor(x, y) % 2 == (if x % 2 == y % 2 then 0 else 1)
  {
  }

  /** UPDATE_HASH */
  function Update(c: Conf, h: nat, b: nat): (r: nat)
    ensures r < Pow2(c.bits)
  {
    Low(Xor(Shl(h, c.Shift()), b), c.bits)
  }

  lemma {:induction false} XorSame(x: nat, x': nat, y: nat, n: nat)
    requires Low(x, n) == Low(x', n)
    ensures Low(Xor(x, y), n) == Low(Xor(x', y), n)
    decreases n
  {
    if n > 0 {
      XorSame(x / 2, x' / 2, y / 2, n - 1);
      XorHalf(x, y);
      XorHalf(x', y);
    }
  }

  lemma {:induction false} ShlSame(x: nat, x': nat, m: nat, s: nat)
    requires Low(x, m) == Low(x', m)
    ensures Low(Shl(x, s), m + s) == Low(Shl(x', s), m + s)
    decreases s
  {
    if s > 0 {
      ShlSame(x, x', m, s - 1);
      HalfDouble(x, s);
      HalfDouble(x', s);
    }
  }

  lemma SameLess(x: nat, x': nat, m: nat, n: nat)
    requires m <= n && Low(x, n) == Low(x', n)
    ensures Low(x, m) == Low(x', m)
  {
    LowLow(x, m, n);
    LowLow(x', m, n);
  }

  /** Two keys that agree in m low bits agree in Shift more after an update. */
  lemma UpdateSame(c: Conf, h: nat, h': nat, b: nat, m: nat)
    requires Low(h, m) == Low(h', m)
    ensures m + c.Shift() >= c.bits ==> Update(c, h, b) == Update(c, h', b)
    ensures m + c.Shift() <= c.bits ==> Low(Update(c, h, b), m + c.Shift()) == Low(Update(c, h', b), m + c.Shift())
  {
    hide Low, Shl, Xor;
    var s, n := c.Shift(), c.bits;
    ShlSame(h, h', m, s);
    var x, x' := Shl(h, s), Shl(h', s);
    if m + s >= n {
      SameLess(x, x', n, m + s);
      XorSame(x, x', b, n);
    }
    if m + s <= n {
      XorSame(x, x', b, m + s);
      LowLow(Xor(x, b), m + s, n);
      LowLow(Xor(x', b), m + s, n);
    }
  }

  /** An update leaves the new byte alone in the low Shift bits. */
  lemma UpdateByte(c: Conf, h: nat, b: nat)
    requires c.Shift() <= c.bits
    ensures Low(Update(c, h, b), c.Shift()) == Low(b, c.Shift())
  {
    hide Low, Shl, Xor;
    var s := c.Shift();
    LowNone(Shl(h, s));
    LowNone(0);
    ShlSame(h, 0, 0, s) by {
      LowNone(h);
    }
    ShlZero(s);
    XorSame(Shl(h, s), 0, b, s);
    XorZero(b);
    LowLow(Xor(Shl(h, s), b), s, c.bits);
  }

  lemma XorZero(b: nat)
    ensures Xor(0, b) == b
  {
  }

  /** ... and the last byte can be told from the key when the others are equal. */
  lemma {:induction false} XorOther(x: nat, b: nat, b': nat, n: nat)
    requires b < Pow2(n) && b' < Pow2(n) && Low(Xor(x, b), n) == Low(Xor(x, b'), n)
    ensures b == b'
    decreases n
  {
    if n > 0 {
      XorHalf(x, b);
      XorHalf(x, b');
      XorOther(x / 2, b / 2, b' / 2, n - 1);
    }
  }

  /** The key of two bytes, as fill_window starts it, and of three. */
  function Hash2(c: Conf, x: byte, y: byte): nat { Update(c, x, y) }

  function Hash3(c: Conf, x: byte, y: byte, z: byte): nat { Update(c, Hash2(c, x, y), z) }

  /** The key of the string at position p of the input. */
  function HashAt(c: Conf, all: seq<byte>, p: nat): (h: nat)
    ensures h < Pow2(c.bits)
  {
    if p + 2 < |all| then Hash3(c, all[p], all[p + 1], all[p + 2]) else 0
  }

  lemma ThirdByte(c: Conf, h: nat, z: byte, z': byte)
    requires c.bits >= 8 && Update(c, h, z) == Update(c, h, z')
    ensures z == z'
  {
    hide Low, Shl, Xor, Pow2;
    var x := Shl(h, c.Shift());
    SameLess(Xor(x, z), Xor(x, z'), 8, c.bits);
    EightBits();
    XorOther(x, z, z', 8);
  }

  /** With equal keys, two equal bytes are followed by a third. */
  lemma SameKey(c: Conf, all: seq<byte>, p: nat, q: nat)
    requires c.Ok() && p + 2 < |all| && q + 2 < |all| && HashAt(c, all, p) == HashAt(c, all, q)
    requires all[p] == all[q] && all[p + 1] == all[q + 1]
    ensures all[p + 2] == all[q + 2]
  {
    hide Update, Pow2;
    ThirdByte(c, Hash2(c, all[p], all[p + 1]), all[p + 2], all[q + 2]);
  }

  /** The key h is ready to take in the third byte of the string at p. */
  predicate Primed(c: Conf, all: seq<byte>, p: nat, h: nat) {
    p + 1 < |all| && c.bits >= c.Shift()
    && Low(h, c.bits - c.Shift()) == Low(Hash2(c, all[p], all[p + 1]), c.bits - c.Shift())
  }

  lemma PrimedStart(c: Conf, all: seq<byte>, p: nat)
    requires c.Ok() && p + 1 < |all|
    ensures Primed(c, all, p, Update(c, all[p], all[p + 1]))
  {
    hide Low, Update, Pow2;
  }

  /** Taking in the third byte gives the key of the string and prepares for the next. */
  lemma PrimedNext(c: Conf, all: seq<byte>, p: nat, h: nat)
    requires c.Ok() && p + 2 < |all| && Primed(c, all, p, h)
    ensures Update(c, h, all[p + 2]) == HashAt(c, all, p)
    ensures Primed(c, all, p + 1, Update(c, h, all[p + 2]))
  {
    hide Low, Update, Pow2;
    var s, n := c.Shift(), c.bits;
    UpdateSame(c, h, Hash2(c, all[p], all[p + 1]), all[p + 2], n - s);
    UpdateByte(c, all[p], all[p + 1]);
    UpdateSame(c, Hash2(c, all[p], all[p + 1]), all[p + 1], all[p + 2], s);
    if s + s > n {
      assert false;
    }
    SameLess(Update(c, Hash2(c, all[p], all[p + 1]), all[p + 2]), Update(c, all[p + 1], all[p + 2]), n - s, s + s);
  }

  /** The positions from a up to b of strings with three bytes before n. */
  function Spelled(a: nat, b: nat, n: nat): set<nat>
    decreases b
  {
    if b <= a then {} else Spelled(a, b - 1, n) + if b + 2 <= n then {b - 1} else {}
  }

  lemma SpelledNone(a: nat, n: nat)
    ensures Spelled(a, a, n) == {}
  {
  }

  lemma SpelledMore(a: nat, b: nat, n: nat)
    requires a <= b
    ensures Spelled(a, b + 1, n) == Spelled(a, b, n) + if b + 3 <= n then {b} else {}
  {
  }

  lemma {:induction false} SpelledJoin(a: nat, b: nat, e: nat, n: nat)
    requires a <= b <= e
    ensures Spelled(a, e, n) == Spelled(a, b, n) + Spelled(b, e, n)
    decreases e
  {
    if b < e {
      SpelledJoin(a, b, e - 1, n);
    }
  }

  // ---- the chains ----

  /**
   * prev[] and head[], which strings were inserted since the tables were cleared, what window index 0
   * stands for, one past the last index inserted, and the position where the tables were cleared.
   */
  datatype Chains = Chains(head: seq<nat>, prev: seq<nat>, ins: set<nat>, slid: nat, top: nat, floor: nat)

  /** i & w_mask, for a window index */
  function Slot(c: Conf, i: nat): nat { Low(i, c.wbits) }

  lemma SlotIs(c: Conf, i: nat)
    requires c.Ok() && i < 2 * c.wsize
    ensures Slot(c, i) == if i < c.wsize then i else i - c.wsize
  {
    hide Low, Pow2;
    if i < c.wsize {
      LowSmall(i, c.wbits);
    } else {
      ShlPow2(0, c.wbits);
      Pow2Zero();
      SplitUnique(i, c.wbits, i - c.wsize, 1);
    }
  }

  predicate In(q: Chains, i: nat) { q.slid + i in q.ins }

  /** No string inserted between v and i has the key h. */
  ghost predicate NoneBetween(c: Conf, all: seq<byte>, q: Chains, v: nat, i: nat, h: nat) {
    forall j: nat | v < j < i && In(q, j) :: HashAt(c, all, q.slid + j) != h
  }

  /** v is the index of the last inserted string with key h before i, or NIL when there is none. */
  ghost predicate Link(c: Conf, all: seq<byte>, q: Chains, v: nat, i: nat, h: nat) {
    (v == 0 || (v < i && In(q, v) && HashAt(c, all, q.slid + v) == h)) && NoneBetween(c, all, q, v, i, h)
  }

  ghost predicate HeadFine(c: Conf, all: seq<byte>, q: Chains, h: nat) {
    h < |q.head| ==> Link(c, all, q, q.head[h], q.top, h)
  }

  /** While the slot of i is not used again it links i to the string before with the same key. */
  ghost predicate PrevFine(c: Conf, all: seq<byte>, q: Chains, i: nat) {
    1 <= i < q.top && In(q, i) && i + c.wsize > q.top && Slot(c, i) < |q.prev|
    ==> Link(c, all, q, q.prev[Slot(c, i)], i, HashAt(c, all, q.slid + i))
  }

  predicate Below(v: nat, top: nat) { v == 0 || v < top }

  /** Every inserted string has its three bytes, and comes after the tables were cleared and before top. */
  predicate InsFine(all: seq<byte>, q: Chains) {
    forall p | p in q.ins :: p + 2 < |all| && q.floor <= p < q.slid + q.top
  }

  ghost predicate ChainsOK(c: Conf, all: seq<byte>, q: Chains) {
    && |q.head| == c.hsize && |q.prev| == c.wsize && q.top <= 2 * c.wsize && q.floor <= q.slid + q.top
    && (forall h: nat :: HeadFine(c, all, q, h))
    && (forall i: nat :: PrevFine(c, all, q, i))
    && (forall j | 0 <= j < |q.prev| :: Below(q.prev[j], q.top))
    && InsFine(all, q)
  }

  /** The tables of a new stream. */
  lemma ChainsEmpty(c: Conf, all: seq<byte>, q: Chains)
    requires |q.head| == c.hsize && |q.prev| == c.wsize && q.top == 0 && q.ins == {} && q.floor == 0
    requires (forall h | 0 <= h < |q.head| :: q.head[h] == 0) && (forall j | 0 <= j < |q.prev| :: q.prev[j] == 0)
    ensures ChainsOK(c, all, q)
  {
  }

  /** CLEAR_HASH: nothing is inserted any more. */
  lemma ChainsCleared(c: Conf, all: seq<byte>, q: Chains, q': Chains)
    requires ChainsOK(c, all, q) && |q'.head| == |q.head| && q'.prev == q.prev && q'.ins == {} && q'.slid == q.slid
    requires q.top <= q'.top <= 2 * c.wsize && q'.floor <= q'.slid + q'.top
    requires forall h | 0 <= h < |q'.head| :: q'.head[h] == 0
    ensures ChainsOK(c, all, q')
  {
    hide HashAt, Slot, Conf.Ok;
    forall j | 0 <= j < |q'.prev|
      ensures Below(q'.prev[j], q'.top)
    {
      assert Below(q.prev[j], q.top);
    }
  }

  lemma SkipLink(c: Conf, all: seq<byte>, q: Chains, v: nat, top: nat, h: nat)
    requires Link(c, all, q, v, q.top, h) && InsFine(all, q) && q.top <= top
    ensures Link(c, all, q.(top := top), v, top, h)
  {
    hide HashAt;
    var q' := q.(top := top);
    forall j: nat | v < j < top && In(q', j)
      ensures HashAt(c, all, q'.slid + j) != h
    {
      assert q.slid + j in q.ins && In(q, j);
    }
  }

  /** A link depends on the strings inserted before i only. */
  lemma SameLink(c: Conf, all: seq<byte>, q: Chains, q': Chains, v: nat, i: nat, h: nat)
    requires Link(c, all, q, v, i, h) && q'.slid == q.slid && q.ins <= q'.ins
    requires forall p | p in q'.ins && p < q.slid + i :: p in q.ins
    ensures Link(c, all, q', v, i, h)
  {
    hide HashAt;
    forall j: nat | v < j < i && In(q', j)
      ensures HashAt(c, all, q'.slid + j) != h
    {
      assert In(q, j);
    }
  }

  /** Strings may be left out. */
  lemma ChainsSkip(c: Conf, all: seq<byte>, q: Chains, top: nat)
    requires ChainsOK(c, all, q) && q.top <= top <= 2 * c.wsize
    ensures ChainsOK(c, all, q.(top := top))
  {
    hide HashAt, Slot, Conf.Ok;
    var q' := q.(top := top);
    forall h: nat
      ensures HeadFine(c, all, q', h)
    {
      assert HeadFine(c, all, q, h);
      if h < |q.head| {
        SkipLink(c, all, q, q.head[h], top, h);
      }
    }
    forall i: nat
      ensures PrevFine(c, all, q', i)
    {
      assert PrevFine(c, all, q, i);
      if 1 <= i < top && In(q', i) {
        assert q.slid + i in q.ins;
        if i + c.wsize > top && Slot(c, i) < |q.prev| {
          SameLink(c, all, q, q', q.prev[Slot(c, i)], i, HashAt(c, all, q.slid + i));
        }
      }
    }
    assert forall j | 0 <= j < |q.prev| :: Below(q.prev[j], q.top);
  }

  /** INSERT_STRING for the string at index s. */
  function Inserted(c: Conf, all: seq<byte>, q: Chains, s: nat, h: nat): Chains
    requires h < |q.head| && Slot(c, s) < |q.prev|
  {
    Chains(q.head[h := s], q.prev[Slot(c, s) := q.head[h]], q.ins + {q.slid + s}, q.slid, s + 1, q.floor)
  }

  lemma ChainsInsert(c: Conf, all: seq<byte>, q: Chains, s: nat)
    requires c.Ok() && q.slid + s + 2 < |all| && q.top <= s < 2 * c.wsize && ChainsOK(c, all, q)
    ensures HashAt(c, all, q.slid + s) < |q.head| && Slot(c, s) < |q.prev|
    ensures ChainsOK(c, all, Inserted(c, all, q, s, HashAt(c, all, q.slid + s)))
    ensures Link(c, all, q, q.head[HashAt(c, all, q.slid + s)], s, HashAt(c, all, q.slid + s))
  {
    hide HashAt, Slot, Pow2;
    var h := HashAt(c, all, q.slid + s);
    SlotIs(c, s);
    ChainsSkip(c, all, q, s);
    var r := q.(top := s);
    assert HeadFine(c, all, r, h);
    SameLink(c, all, r, q, q.head[h], s, h);
    var q' := Inserted(c, all, r, s, h);
    forall k: nat
      ensures HeadFine(c, all, q', k)
    {
      assert HeadFine(c, all, r, k);
      InsertedHead(c, all, r, s, h, k);
    }
    forall i: nat
      ensures PrevFine(c, all, q', i)
    {
      InsertedPrev(c, all, r, s, h, i);
    }
    forall j | 0 <= j < |q'.prev|
      ensures Below(q'.prev[j], q'.top)
    {
      assert Below(r.prev[j], r.top);
    }
  }

  lemma InsertedHead(c: Conf, all: seq<byte>, q: Chains, s: nat, h: nat, k: nat)
    requires h < |q.head| && Slot(c, s) < |q.prev| && q.top == s && h == HashAt(c, all, q.slid + s)
    requires HeadFine(c, all, q, k)
    ensures HeadFine(c, all, Inserted(c, all, q, s, h), k)
  {
    hide HashAt, Slot, Pow2;
    var q' := Inserted(c, all, q, s, h);
    assert In(q', s);
    if k < |q.head| && k != h {
      forall j: nat | q.head[k] < j < s + 1 && In(q', j)
        ensures HashAt(c, all, q'.slid + j) != k
      {
        if j < s {
          assert In(q, j);
        }
      }
    }
  }

  lemma InsertedPrev(c: Conf, all: seq<byte>, q: Chains, s: nat, h: nat, i: nat)
    requires c.Ok() && h < |q.head| && Slot(c, s) < |q.prev| && s < 2 * c.wsize
    requires q.top == s && h == HashAt(c, all, q.slid + s) && Link(c, all, q, q.head[h], s, h)
    requires PrevFine(c, all, q, i)
    ensures PrevFine(c, all, Inserted(c, all, q, s, h), i)
  {
    hide HashAt, Slot, Pow2;
    var q' := Inserted(c, all, q, s, h);
    if 1 <= i <= s && i + c.wsize > s + 1 && In(q', i) && Slot(c, i) < |q'.prev| {
      SlotIs(c, i);
      SlotIs(c, s);
      SameLink(c, all, q, q', q'.prev[Slot(c, i)], i, HashAt(c, all, q.slid + i));
    }
  }

  /** What a slide does to a table entry. */
  function SlideEntry(v: nat, wsize: nat): nat { if v >= wsize then v - wsize else 0 }

  predicate SlidTable(was: seq<nat>, now: seq<nat>, wsize: nat) {
    |now| == |was| && forall j | 0 <= j < |was| :: now[j] == SlideEntry(was[j], wsize)
  }

  /** Sliding the window by wsize keeps the chains. */
  lemma ChainsSlide(c: Conf, all: seq<byte>, q: Chains, q': Chains)
    requires c.Ok() && ChainsOK(c, all, q) && q.top >= c.wsize
    requires SlidTable(q.head, q'.head, c.wsize) && SlidTable(q.prev, q'.prev, c.wsize)
    requires q'.ins == q.ins && q'.slid == q.slid + c.wsize && q'.top == q.top - c.wsize && q'.floor == q.floor
    ensures ChainsOK(c, all, q')
  {
    hide HashAt, Slot, Pow2;
    forall h: nat
      ensures HeadFine(c, all, q', h)
    {
      assert HeadFine(c, all, q, h);
      if h < |q.head| {
        LinkSlides(c, all, q, q', q.head[h], q.top, h);
      }
    }
    forall i: nat
      ensures PrevFine(c, all, q', i)
    {
      assert PrevFine(c, all, q, i + c.wsize);
      PrevSlides(c, all, q, q', i);
    }
    forall j | 0 <= j < |q'.prev|
      ensures Below(q'.prev[j], q'.top)
    {
      assert Below(q.prev[j], q.top);
    }
  }

  lemma LinkSlides(c: Conf, all: seq<byte>, q: Chains, q': Chains, v: nat, i: nat, h: nat)
    requires Link(c, all, q, v, i, h) && q'.ins == q.ins && q'.slid == q.slid + c.wsize && i >= c.wsize
    ensures Link(c, all, q', SlideEntry(v, c.wsize), i - c.wsize, h)
  {
    hide HashAt;
    if v >= c.wsize {
      assert q'.slid + (v - c.wsize) == q.slid + v;
    }
    forall j: nat | SlideEntry(v, c.wsize) < j < i - c.wsize && In(q', j)
      ensures HashAt(c, all, q'.slid + j) != h
    {
      assert q'.slid + j == q.slid + (j + c.wsize);
      assert In(q, j + c.wsize);
    }
  }

  lemma PrevSlides(c: Conf, all: seq<byte>, q: Chains, q': Chains, i: nat)
    requires c.Ok() && |q.prev| == c.wsize && q.top <= 2 * c.wsize && PrevFine(c, all, q, i + c.wsize)
    requires SlidTable(q.prev, q'.prev, c.wsize) && q.top >= c.wsize
    requires q'.ins == q.ins && q'.slid == q.slid + c.wsize && q'.top == q.top - c.wsize
    ensures PrevFine(c, all, q', i)
  {
    hide HashAt, Slot, Pow2;
    if 1 <= i < q'.top && In(q', i) && i + c.wsize > q'.top {
      SlotIs(c, i);
      SlotIs(c, i + c.wsize);
      assert q'.slid + i == q.slid + (i + c.wsize);
      LinkSlides(c, all, q, q', q.prev[Slot(c, i)], i + c.wsize, HashAt(c, all, q'.slid + i));
    }
  }

  /** Following a link of a string that is near enough. */
  lemma FollowLink(c: Conf, all: seq<byte>, q: Chains, i: nat)
    requires c.Ok() && 1 <= i < q.top && i + c.wsize > q.top && In(q, i) && ChainsOK(c, all, q)
    ensures Slot(c, i) < |q.prev| && Link(c, all, q, q.prev[Slot(c, i)], i, HashAt(c, all, q.slid + i))
  {
    hide HashAt, Slot, Pow2;
    SlotIs(c, i);
    assert PrevFine(c, all, q, i);
  }

  /** Any slot holds the index of an earlier string, or nothing. */
  lemma AnySlot(c: Conf, all: seq<byte>, q: Chains, i: nat)
    requires c.Ok() && i < 2 * c.wsize && ChainsOK(c, all, q)
    ensures Slot(c, i) < |q.prev| && Below(q.prev[Slot(c, i)], q.top)
  {
    hide HashAt, Slot, Pow2;
    SlotIs(c, i);
  }

  /** p is the position of the last inserted string before pos with the same key. */
  ghost predicate Newest(c: Conf, all: seq<byte>, ins: set<nat>, p: nat, pos: nat) {
    && p in ins && p < pos && HashAt(c, all, p) == HashAt(c, all, pos)
    && forall j | p < j < pos && j in ins :: HashAt(c, all, j) != HashAt(c, all, pos)
  }

  /** The head of a chain is the last inserted string with its key, unless that is at window index 0 or before. */
  lemma HeadIsNewest(c: Conf, all: seq<byte>, q: Chains, p: nat, i: nat)
    requires c.Ok() && ChainsOK(c, all, q) && q.top <= i && q.slid < p && Newest(c, all, q.ins, p, q.slid + i)
    ensures HashAt(c, all, q.slid + i) < |q.head| && q.head[HashAt(c, all, q.slid + i)] == p - q.slid
  {
    hide HashAt;
    var h, j := HashAt(c, all, q.slid + i), p - q.slid;
    assert h < |q.head| by {
      KeyBelow(c, all, q.slid + i, q);
    }
    assert HeadFine(c, all, q, h);
    assert q.slid + j in q.ins && In(q, j);
    var v := q.head[h];
    assert v == 0 || q.slid + v in q.ins;
  }

  lemma KeyBelow(c: Conf, all: seq<byte>, p: nat, q: Chains)
    requires c.Ok() && ChainsOK(c, all, q)
    ensures HashAt(c, all, p) < |q.head|
  {
    hide HeadFine, PrevFine;
  }

  /** The key shifts by a third of its bits, rounded up, so that a byte has left it after three updates. */
  lemma ShiftIs(c: Conf)
    ensures 3 * c.Shift() >= c.bits && (c.bits > 0 ==> 3 * (c.Shift() - 1) < c.bits)
  {
  }

  /** A string inserted has its three bytes. */
  lemma InBytes(c: Conf, all: seq<byte>, q: Chains, i: nat)
    requires In(q, i) && ChainsOK(c, all, q)
    ensures q.slid + i + 2 < |all| && i < q.top && q.floor <= q.slid + i
  {
    assert q.slid + i in q.ins;
  }
}
