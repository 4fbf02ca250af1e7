/**
 * The invariant of the table builder and the steps that keep it: adding a table and
 * its link, writing the slots of one code, and backing up over finished tables.
 */
module HuftInvariant {
  import opened Arith
  import opened CanonicalCode
  import opened HuftSpec

  // ---- alignment ----

  lemma LowOfMultiple(a: nat, n: nat, m: nat)
    requires m <= n
    ensures Low(Shl(a, n), m) == 0
  {
    ShlShl(a, n - m, m);
    SplitUnique(Shl(a, n), m, 0, Shl(a, n - m));
  }

  lemma LowZeroWeaken(x: nat, n: nat, m: nat)
    requires m <= n && Low(x, n) == 0
    ensures Low(x, m) == 0
  {
    LowLow(x, m, n);
    LowSmall(0, m);
  }

  lemma {:induction false} LowZeroAdd(x: nat, y: nat, n: nat)
    requires Low(x, n) == 0 && Low(y, n) == 0
    ensures Low(x + y, n) == 0
  {
    SplitAt(x, n);
    SplitAt(y, n);
    ShlAdd(Shr(x, n), Shr(y, n), n);
    SplitUnique(x + y, n, 0, Shr(x, n) + Shr(y, n));
  }

  lemma LowPow2(n: nat, m: nat)
    requires m <= n
    ensures Low(Pow2(n), m) == 0
  {
    ShlPow2(0, n);
    LowOfMultiple(1, n, m);
  }

  /** Two multiples of 2^n less than 2^n apart are equal. */
  lemma AlignedEqual(x: nat, y: nat, n: nat)
    requires Low(x, n) == 0 && Low(y, n) == 0 && x <= y < x + Pow2(n)
    ensures x == y
  {
    SplitAt(x, n);
    SplitAt(y, n);
    if Shr(x, n) < Shr(y, n) {
      ShlGap(Shr(x, n), Shr(y, n), n);
    } else if Shr(y, n) < Shr(x, n) {
      ShlGap(Shr(y, n), Shr(x, n), n);
    }
  }

  /** A multiple of 2^n below another is at least 2^n below. */
  lemma AlignedGap(x: nat, y: nat, n: nat)
    requires Low(x, n) == 0 && Low(y, n) == 0 && x < y
    ensures x + Pow2(n) <= y
  {
    if y < x + Pow2(n) {
      AlignedEqual(x, y, n);
    }
  }

  lemma SlotAligned(t: Tab, idx: nat)
    requires t.Fits() && Low(t.lo, 15 - t.w) == 0
    ensures Low(t.Slot(idx), 15 - t.w - t.j) == 0
  {
    hide Low, Shl, Rev, Pow2;
    var n := 15 - t.w - t.j;
    LowZeroWeaken(t.lo, 15 - t.w, n);
    LowOfMultiple(Rev(idx, t.j), n, n);
    LowZeroAdd(t.lo, Shl(Rev(idx, t.j), n), n);
  }

  /** Every slot lies inside its table's range. */
  lemma SlotRange(t: Tab, idx: nat)
    requires t.Fits()
    ensures t.lo <= t.Slot(idx) && t.Slot(idx) + Pow2(15 - t.w - t.j) <= t.Hi()
  {
    ShlBound(Rev(idx, t.j), t.j, 15 - t.w - t.j);
  }

  lemma SlotInjective(t: Tab, a: nat, b: nat)
    requires t.Fits() && a < Pow2(t.j) && b < Pow2(t.j) && t.Slot(a) == t.Slot(b)
    ensures a == b
  {
    var n := 15 - t.w - t.j;
    if Rev(a, t.j) < Rev(b, t.j) {
      ShlGap(Rev(a, t.j), Rev(b, t.j), n);
    } else if Rev(b, t.j) < Rev(a, t.j) {
      ShlGap(Rev(b, t.j), Rev(a, t.j), n);
    }
    RevInjective(a, b, t.j);
  }

  // ---- sizing ----

  lemma {:induction false} GrowCovers(c: Counts, z: nat, w: nat, j: nat, f: nat, hi: nat)
    requires 1 <= j <= z && w + z <= 15
    requires Pos(c, w + j - 1) + Shl(f, 15 - (w + j - 1)) == hi
    ensures Grow(c, z, w, j, f) == z || hi <= Pos(c, w + Grow(c, z, w, j, f))
    decreases z - j
  {
    if j < z {
      var n := 15 - (w + j);
      PosNext(c, w + j);
      ShlShl(f, 1, n);
      assert Shl(f, 1) == 2 * Shl(f, 0);
      if 2 * f <= c[w + j] {
        ShlMono(2 * f, c[w + j], n);
      } else {
        ShlAdd(2 * f - c[w + j], c[w + j], n);
        GrowCovers(c, z, w, j + 1, 2 * f - c[w + j], hi);
      }
    }
  }

  /** The strings of a prefix x of w bits start with a code, and x is that code's first string. */
  lemma PrefixStart(job: Job, w: nat, x: nat)
    requires job.Valid() && x < Pow2(15) && w < LenAt(job.c, x)
    requires Low(x, 15 - w) == 0
    ensures var k := LenAt(job.c, x);
      k <= job.g && 0 <= RankAt(job.c, x) < job.c[k]
      && x == Shl(NextCode(job.c, k) + RankAt(job.c, x), 15 - k)
  {
    hide Shl, Low, Pow2, NextCode, LenAt, RankAt, End, Pos, Off;
    var k := LenAt(job.c, x);
    OwnerOf(job.c, job.g, x);
    LowZeroWeaken(x, 15 - w, 15 - k);
    LowOfMultiple(NextCode(job.c, k) + RankAt(job.c, x), 15 - k, 15 - k);
    AlignedEqual(Shl(NextCode(job.c, k) + RankAt(job.c, x), 15 - k), x, 15 - k);
  }

  /** A table either has all l bits or holds every code of its prefix. */
  lemma BitsCover(job: Job, w: nat, x: nat)
    requires job.Valid() && w < LenAt(job.c, x) && x + Pow2(15 - w) <= Pow2(15)
    requires Low(x, 15 - w) == 0
    ensures 1 <= BitsAt(job, w, x) && w + BitsAt(job, w, x) <= job.g
    ensures BitsAt(job, w, x) >= job.l || x + Pow2(15 - w) <= Pos(job.c, w + BitsAt(job, w, x))
  {
    hide Shl, Low, Pow2, NextCode, LenAt, RankAt, Grow, Off;
    var c, k, j := job.c, LenAt(job.c, x), BitsAt(job, w, x);
    PrefixStart(job, w, x);
    var n := c[k] - RankAt(c, x);
    ShlAdd(NextCode(c, k) + RankAt(c, x), n, 15 - k);
    assert Pos(c, k) == x + Shl(n, 15 - k);
    ShlPow2(k - w, 15 - k);
    CompletePos(c, job.g, job.g);
    if Pow2(k - w) <= n {
      ShlMono(Pow2(k - w), n, 15 - k);
    } else {
      var z := if job.g - w > job.l then job.l else job.g - w;
      if k - w < z {
        var f := Pow2(k - w) - n;
        ShlAdd(f, n, 15 - k);
        GrowCovers(c, z, w, k - w + 1, f, x + Pow2(15 - w));
      }
    }
  }

  // ---- the invariant ----

  ghost predicate TabOK(job: Job, t: Tab)
    requires job.Valid()
  {
    && Level(job.l, t.w)
    && 1 <= t.j && t.w + t.j <= job.g
    && Low(t.lo, 15 - t.w) == 0 && t.Hi() <= Pow2(15)
    && t.w < LenAt(job.c, t.lo)
    && t.j == BitsAt(job, t.w, t.lo)
  }

  lemma TabFacts(job: Job, t: Tab)
    requires job.Valid() && TabOK(job, t)
    ensures t.Fits() && t.w + t.j <= job.g && Low(t.lo, 15 - t.w) == 0 && t.Hi() <= Pow2(15)
  {
    hide LenAt, BitsAt, Low, Off, Pos;
  }

  lemma StackIn(job: Job, tabs: Tabs, st: seq<nat>, x: seq<nat>)
    requires Stack(job, tabs, st, x)
    ensures |st| <= |x| && forall d | 0 <= d < |st| :: st[d] in tabs
  {
    hide Nested, Rev, Pow2;
  }

  /** Tables lie side by side in the space from hn0 to hn. */
  ghost predicate Space(tabs: Tabs, hn0: nat, hn: nat) {
    && hn0 <= hn
    && (forall b | b in tabs :: hn0 <= b && b + Pow2(tabs[b].j) <= hn)
    && (forall a, b | a in tabs && b in tabs && a < b :: a + Pow2(tabs[a].j) <= b)
  }

  ghost predicate Tables(job: Job, tabs: Tabs, hn0: nat, hn: nat)
    requires job.Valid()
  {
    && (forall b | b in tabs :: TabOK(job, tabs[b]))
    && Space(tabs, hn0, hn)
  }

  /** x holds the reversed prefixes of the open tables. */
  ghost predicate Saved(tabs: Tabs, st: seq<nat>, x: seq<nat>) {
    && |st| <= |x|
    && (forall d | 0 <= d < |st| ::
          st[d] in tabs && x[d] < Pow2(tabs[st[d]].w) && Rev(x[d], 15) == tabs[st[d]].lo)
  }

  /** Each open table starts where the l bits looked up in the one around it end. */
  ghost predicate Nested(l: nat, tabs: Tabs, st: seq<nat>) {
    && (forall d | 0 <= d < |st| :: st[d] in tabs && d <= tabs[st[d]].w < 15)
    && (|st| > 0 ==> tabs[st[0]].w == 0)
    && (forall d | 0 <= d < |st| - 1 :: tabs[st[d]].j >= l && tabs[st[d]].w + l == tabs[st[d + 1]].w)
    && (forall d, e | 0 <= d < e < |st| :: tabs[st[d]].w + l <= tabs[st[e]].w)
  }

  /** The open tables st, outermost first, and the prefixes x saved for them. */
  ghost predicate Stack(job: Job, tabs: Tabs, st: seq<nat>, x: seq<nat>) {
    Saved(tabs, st, x) && Nested(job.l, tabs, st)
  }

  ghost predicate InRange(t: Tab, s: nat) {
    t.Fits() && t.lo <= s < t.Hi()
  }

  /** s is the first string not yet assigned; the tables open at s are exactly those in st. */
  ghost predicate Open(job: Job, tabs: Tabs, st: seq<nat>, s: nat)
    requires forall d | 0 <= d < |st| :: st[d] in tabs
  {
    && s <= Pow2(15)
    && (s < Pow2(15) ==> forall d | 0 <= d < |st| :: InRange(tabs[st[d]], s))
    && (forall b | b in tabs :: b in st || (tabs[b].Fits() && tabs[b].Hi() <= s))
    && (|st| == 0 ==> s == 0)
    && (|st| > 0 ==> var n := tabs[st[|st| - 1]].w + job.l; n <= 15 ==> Low(s, 15 - n) == 0)
  }

  /** No table has more than l bits. */
  ghost predicate Narrow(job: Job, tabs: Tabs) {
    forall b | b in tabs :: tabs[b].j <= job.l
  }

  /** Is the slot written once all strings below s are assigned and top is the innermost table? */
  ghost predicate Due(l: nat, tabs: Tabs, top: int, s: nat, b: nat, idx: nat)
    requires b in tabs && tabs[b].Fits()
  {
    var t := tabs[b].Part(l);
    idx < Pow2(t.j) && (t.Slot(idx) < s || (t.Slot(idx) == s && b != top))
  }

  ghost predicate Done(job: Job, hp: seq<Huft>, tabs: Tabs, top: int, s: nat, hn: nat)
    requires job.Valid() && hn <= |hp|
    requires forall b | b in tabs :: tabs[b].Fits() && b + Pow2(tabs[b].j) <= hn
  {
    forall b, idx: nat | b in tabs && Due(job.l, tabs, top, s, b, idx) && b + idx < |hp| ::
      SlotOK(job, hp, tabs, b, idx)
  }

  /** A snapshot of the builder: the table space, the open tables, and the first free string. */
  datatype Stage = Stage(hp: seq<Huft>, tabs: Tabs, st: seq<nat>, x: seq<nat>, s: nat, hn0: nat, hn: nat)
  {
    ghost function Top(): int { if |st| == 0 then -1 else st[|st| - 1] }

    ghost predicate Shape(job: Job)
      requires job.Valid()
    {
      hn <= |hp| && Tables(job, tabs, hn0, hn) && Stack(job, tabs, st, x) && Open(job, tabs, st, s)
    }

    ghost predicate Inv(job: Job)
      requires job.Valid()
    {
      Shape(job) && Done(job, hp, tabs, Top(), s, hn)
    }
  }

  // ---- the code counter i, the reversal of s ----

  /** If s ends in 15 - n zeros then i has at most n bits. */
  lemma CounterBound(i: nat, s: nat, n: nat)
    requires n <= 15 && i < Pow2(15) && Rev(i, 15) == s && Low(s, 15 - n) == 0
    ensures i < Pow2(n)
  {
    hide Shl, Shr, Rev, Low, Pow2;
    RevRev(i, 15);
    RevSplit(s, 15 - n, n);
    RevLow(s, 15 - n);
    RevOfZero(15 - n);
    ShlZero(n);
  }

  /** The bits of i after the first w lead from the prefix to s. */
  lemma CounterSlot(i: nat, w: nat, m: nat, x: nat)
    requires w + m <= 15 && i < Pow2(w + m) && Low(i, w) == x
    ensures Shr(i, w) < Pow2(m)
    ensures Rev(i, 15) == Rev(x, 15) + Shl(Rev(Shr(i, w), m), 15 - w - m)
  {
    hide Shl, Shr, Rev, Low, Pow2;
    ShrBound(i, w, m);
    RevSplit(i, w, 15 - w);
    RevLow(i, w);
    RevPad(x, w, 15 - w);
    RevPad(Shr(i, w), m, 15 - w - m);
    assert w + (15 - w) == 15 && m + (15 - w - m) == 15 - w;
  }

  /** The test that ends the backing up: i starts with the saved prefix just if s is in its range. */
  lemma PrefixTest(i: nat, w: nat, x: nat)
    requires w <= 15 && i < Pow2(15) && x < Pow2(w)
    ensures Low(i, w) == x <==> Rev(x, 15) <= Rev(i, 15) < Rev(x, 15) + Pow2(15 - w)
  {
    RevSplit(i, w, 15 - w);
    RevLow(i, w);
    RevPad(x, w, 15 - w);
    if Rev(x, 15) <= Rev(i, 15) < Rev(x, 15) + Pow2(15 - w) {
      SplitUnique(Rev(i, 15), 15 - w, Rev(Shr(i, w), 15 - w), Rev(i, w));
      SplitUnique(Rev(i, 15), 15 - w, Rev(i, 15) - Rev(x, 15), Rev(x, w));
      RevInjective(Low(i, w), x, w);
    }
  }

  lemma LenAtBelow(c: Counts, s: nat, m: nat)
    requires 1 <= m <= 15 && s < Pos(c, m)
    ensures LenAt(c, s) <= m
  {
    hide Pos;
    var r := LenAt(c, s);
    if m < r {
      PosMono(c, m, r - 1);
    }
  }

  /** A code that fits the lookup width fits its table; a longer one finds the table full size. */
  lemma TableHolds(job: Job, t: Tab, s: nat)
    requires job.Valid() && TabOK(job, t) && InRange(t, s)
    ensures t.j < job.l ==> LenAt(job.c, s) <= t.w + t.j
  {
    hide Pos, LenAt, BitsAt, Low, Pow2;
    BitsCover(job, t.w, t.lo);
    if t.j < job.l {
      LenAtBelow(job.c, s, t.w + t.j);
    }
  }

  // ---- adding a table ----

  lemma NewTable(job: Job, w: nat, s: nat)
    requires job.Valid() && s < Pow2(15) && w < LenAt(job.c, s) && Low(s, 15 - w) == 0
    requires Level(job.l, w)
    ensures TabOK(job, Tab(w, BitsAt(job, w, s), s)) && w + BitsAt(job, w, s) <= 15
  {
    hide Pos, LenAt, BitsAt, Low, Level;
    LowPow2(15, 15 - w);
    AlignedGap(s, Pow2(15), 15 - w);
    BitsCover(job, w, s);
  }

  /** The stage after a table of the right size is made for the prefix that begins at s. */
  ghost predicate Pushed(job: Job, g: Stage, g': Stage, w: nat, i: nat)
    requires job.g <= 15
  {
    && (if |g.st| == 0 then w == 0 else g.st[|g.st| - 1] in g.tabs && w == g.tabs[g.st[|g.st| - 1]].w + job.l)
    && g'.tabs == g.tabs[g.hn := Tab(w, BitsAt(job, w, g.s), g.s)]
    && g'.st == g.st + [g.hn]
    && |g.st| < |g.x| && g'.x == g.x[|g.st| := i]
    && g'.s == g.s && g'.hn0 == g.hn0 && g'.hn == g.hn + Pow2(BitsAt(job, w, g.s))
  }

  lemma PushTables(job: Job, g: Stage, g': Stage, w: nat, i: nat)
    requires job.Valid() && g.Shape(job) && Pushed(job, g, g', w, i)
    requires g.s < Pow2(15) && w < LenAt(job.c, g.s)
    ensures g.hn !in g.tabs && Low(g.s, 15 - w) == 0
    ensures g'.tabs[g.hn].Fits() && 1 <= BitsAt(job, w, g.s)
    ensures Tables(job, g'.tabs, g'.hn0, g'.hn)
  {
    hide Pos, LenAt, BitsAt, Low, Saved, Nested, Off, Pow2, TabOK, Space;
    if |g.st| == 0 {
      LowSmall(0, 15);
    } else {
      TabLevel(job, g.tabs[g.st[|g.st| - 1]]);
    }
    NewTable(job, w, g.s);
    var t := Tab(w, BitsAt(job, w, g.s), g.s);
    TabFacts(job, t);
    TabLevel(job, t);
    PushSpace(g.tabs, g.hn0, g.hn, t);
  }

  lemma TabLevel(job: Job, t: Tab)
    requires job.Valid() && TabOK(job, t)
    ensures Level(job.l, t.w) && Level(job.l, t.w + job.l) && t.j >= 1
  {
    hide LenAt, BitsAt, Low, Off, Pos;
  }

  lemma PushSpace(tabs: Tabs, hn0: nat, hn: nat, t: Tab)
    requires Space(tabs, hn0, hn)
    ensures hn !in tabs && Space(tabs[hn := t], hn0, hn + Pow2(t.j))
  {
    hide Pow2;
    forall b | b in tabs
      ensures b < hn
    {
      Pow2Pos(tabs[b].j);
    }
  }

  lemma PushSaved(tabs: Tabs, st: seq<nat>, x: seq<nat>, q: nat, t: Tab, i: nat)
    requires Saved(tabs, st, x) && |st| < |x| && q !in tabs
    requires i < Pow2(t.w) && Rev(i, 15) == t.lo
    ensures Saved(tabs[q := t], st + [q], x[|st| := i])
  {
    hide Pow2, Rev;
  }

  lemma PushNested(l: nat, tabs: Tabs, st: seq<nat>, q: nat, t: Tab)
    requires Nested(l, tabs, st) && q !in tabs && l > 0 && t.w < 15
    requires if |st| == 0 then t.w == 0
             else tabs[st[|st| - 1]].j >= l && t.w == tabs[st[|st| - 1]].w + l
    ensures Nested(l, tabs[q := t], st + [q])
  {
    hide Nested;
    var st', tabs' := st + [q], tabs[q := t];
    forall d | 0 <= d < |st'|
      ensures st'[d] in tabs' && d <= tabs'[st'[d]].w < 15 && (d == 0 ==> tabs'[st'[d]].w == 0)
    {
      NestedLast(l, tabs, st, d);
    }
    forall d | 0 <= d < |st'| - 1
      ensures tabs'[st'[d]].j >= l && tabs'[st'[d]].w + l == tabs'[st'[d + 1]].w
    {
      NestedLast(l, tabs, st, d);
      NestedNext(l, tabs, st, d);
    }
    forall d, e | 0 <= d < e < |st'|
      ensures tabs'[st'[d]].w + l <= tabs'[st'[e]].w
    {
      NestedLast(l, tabs, st, d);
      NestedLast(l, tabs, st, e);
      NestedPair(l, tabs, st, d, if e < |st| then e else |st| - 1);
    }
    NestedAll(l, tabs', st');
  }

  lemma NestedAll(l: nat, tabs: Tabs, st: seq<nat>)
    requires forall d | 0 <= d < |st| :: st[d] in tabs && d <= tabs[st[d]].w < 15 && (d == 0 ==> tabs[st[d]].w == 0)
    requires forall d | 0 <= d < |st| - 1 :: tabs[st[d]].j >= l && tabs[st[d]].w + l == tabs[st[d + 1]].w
    requires forall d, e | 0 <= d < e < |st| :: tabs[st[d]].w + l <= tabs[st[e]].w
    ensures Nested(l, tabs, st)
  {
  }

  lemma NestedNext(l: nat, tabs: Tabs, st: seq<nat>, d: nat)
    requires Nested(l, tabs, st) && d < |st|
    ensures st[d] in tabs
    ensures d + 1 < |st| ==> st[d + 1] in tabs && tabs[st[d]].j >= l && tabs[st[d]].w + l == tabs[st[d + 1]].w
  {
  }

  lemma NestedLast(l: nat, tabs: Tabs, st: seq<nat>, d: nat)
    requires Nested(l, tabs, st) && l > 0 && d <= |st|
    ensures d < |st| ==> st[d] in tabs && d <= tabs[st[d]].w < 15 && (d == 0 ==> tabs[st[d]].w == 0)
    ensures d == |st| > 0 ==> st[d - 1] in tabs && d - 1 <= tabs[st[d - 1]].w
  {
  }

  lemma NestedPair(l: nat, tabs: Tabs, st: seq<nat>, d: nat, e: nat)
    requires Nested(l, tabs, st) && d <= e < |st|
    ensures st[d] in tabs && st[e] in tabs && (d < e ==> tabs[st[d]].w + l <= tabs[st[e]].w)
  {
  }

  lemma PushStack(job: Job, g: Stage, g': Stage, w: nat, i: nat)
    requires job.Valid() && g.Shape(job) && Pushed(job, g, g', w, i)
    requires g.s < Pow2(15) && w < LenAt(job.c, g.s)
    requires i < Pow2(15) && Rev(i, 15) == g.s
    ensures i < Pow2(w)
    ensures Stack(job, g'.tabs, g'.st, g'.x)
  {
    hide Pos, LenAt, BitsAt, Low, Pow2, Rev, Saved, Tables;
    PushTables(job, g, g', w, i);
    CounterBound(i, g.s, w);
    var t := Tab(w, BitsAt(job, w, g.s), g.s);
    PushSaved(g.tabs, g.st, g.x, g.hn, t, i);
    if |g.st| > 0 {
      TopFull(job, g);
    }
    PushNested(job.l, g.tabs, g.st, g.hn, t);
  }

  /** When the next code is too long for the innermost table, that table has at least l bits. */
  lemma TopFull(job: Job, g: Stage)
    requires job.Valid() && g.Shape(job) && g.s < Pow2(15) && |g.st| > 0
    requires g.tabs[g.st[|g.st| - 1]].w + job.l < LenAt(job.c, g.s)
    ensures g.tabs[g.st[|g.st| - 1]].j >= job.l
  {
    hide Pos, LenAt, BitsAt, Low, Complete, Rev, Pow2, Saved;
    TableHolds(job, g.tabs[g.st[|g.st| - 1]], g.s);
  }

  /** What is known of the innermost table. */
  lemma TopFacts(job: Job, g: Stage)
    requires job.Valid() && g.Shape(job) && |g.st| > 0 && g.s < Pow2(15)
    ensures |g.st| <= |g.x| && g.st[|g.st| - 1] in g.tabs
    ensures var t := g.tabs[g.st[|g.st| - 1]];
      && TabOK(job, t) && InRange(t, g.s)
      && g.x[|g.st| - 1] < Pow2(t.w) && Rev(g.x[|g.st| - 1], 15) == t.lo
      && (t.w + job.l <= 15 ==> Low(g.s, 15 - (t.w + job.l)) == 0)
  {
    hide LenAt, BitsAt, Low, Off, Pos, Pow2, Rev, Nested, Space, TabOK, Complete;
  }

  lemma PushOpen(job: Job, g: Stage, g': Stage, w: nat, i: nat)
    requires job.Valid() && g.Shape(job) && Pushed(job, g, g', w, i)
    requires g.s < Pow2(15) && w < LenAt(job.c, g.s)
    ensures forall d | 0 <= d < |g'.st| :: g'.st[d] in g'.tabs
    ensures Open(job, g'.tabs, g'.st, g'.s)
  {
    hide Pos, LenAt, BitsAt, Low, Saved, Tables, Pow2, TabOK;
    PushTables(job, g, g', w, i);
    var n := w + job.l;
    if n <= 15 {
      LowZeroWeaken(g.s, 15 - w, 15 - n);
    }
    assert g'.st[|g.st|] == g.hn;
    OpenMore(g.tabs, g.st, g.s, g.hn, g'.tabs[g.hn]);
  }

  lemma OpenMore(tabs: Tabs, st: seq<nat>, s: nat, q: nat, t: Tab)
    requires q !in tabs && t.Fits() && t.lo == s
    requires forall d | 0 <= d < |st| :: st[d] in tabs && InRange(tabs[st[d]], s)
    requires forall b | b in tabs :: b in st || (tabs[b].Fits() && tabs[b].Hi() <= s)
    ensures var tabs', st' := tabs[q := t], st + [q];
      && (forall d | 0 <= d < |st'| :: st'[d] in tabs' && InRange(tabs'[st'[d]], s))
      && (forall b | b in tabs' :: b in st' || (tabs'[b].Fits() && tabs'[b].Hi() <= s))
  {
    var tabs', st' := tabs[q := t], st + [q];
    assert st'[|st|] == q;
    forall b | b in tabs'
      ensures b in st' || (tabs'[b].Fits() && tabs'[b].Hi() <= s)
    {
      if b in st {
        var d :| 0 <= d < |st| && st[d] == b;
        assert st'[d] == b;
      }
    }
  }

  lemma PushShape(job: Job, g: Stage, g': Stage, w: nat, i: nat)
    requires job.Valid() && g.Shape(job) && Pushed(job, g, g', w, i)
    requires g.s < Pow2(15) && w < LenAt(job.c, g.s)
    requires i < Pow2(15) && Rev(i, 15) == g.s && g'.hn <= |g'.hp|
    ensures i < Pow2(w) && g.hn !in g.tabs && Low(g.s, 15 - w) == 0
    ensures g'.Shape(job)
  {
    hide Pos, LenAt, BitsAt, Complete, Low, Pow2, Tables, Stack, Open;
    PushTables(job, g, g', w, i);
    PushStack(job, g, g', w, i);
    PushOpen(job, g, g', w, i);
  }

  ghost predicate Extends(tabs: Tabs, tabs': Tabs) {
    forall b | b in tabs :: b in tabs' && tabs'[b] == tabs[b]
  }

  /** A slot that is not overwritten stays right when tables are added. */
  lemma SlotKept(job: Job, hp: seq<Huft>, hp': seq<Huft>, tabs: Tabs, tabs': Tabs, b: nat, idx: nat)
    requires job.Valid() && b in tabs && tabs[b].Fits() && b + idx < |hp| && b + idx < |hp'|
    requires SlotOK(job, hp, tabs, b, idx) && hp'[b + idx] == hp[b + idx]
    requires Extends(tabs, tabs')
    ensures SlotOK(job, hp', tabs', b, idx)
  {
    hide Complete, Pos, Off, LenAt, BitsAt, RankAt, LeafOK, Shl, Rev;
  }

  lemma SpaceDisjoint(tabs: Tabs, hn0: nat, hn: nat, a: nat, i: nat, b: nat, j: nat)
    requires Space(tabs, hn0, hn) && a in tabs && b in tabs
    requires i < Pow2(tabs[a].j) && j < Pow2(tabs[b].j)
    ensures a + i < hn
    ensures a + i == b + j ==> a == b && i == j
  {
    hide Pow2;
  }

  /** The slot through which the table for s is reached. */
  lemma LinkSlot(job: Job, g: Stage, i: nat)
    requires job.Valid() && g.Shape(job) && |g.st| > 0 && g.s < Pow2(15)
    requires g.tabs[g.st[|g.st| - 1]].w + job.l < LenAt(job.c, g.s)
    requires i < Pow2(15) && Rev(i, 15) == g.s
    ensures var t := g.tabs[g.st[|g.st| - 1]];
      && t.Fits() && t.w + job.l <= 15 && Shr(i, t.w) < Pow2(job.l) <= Pow2(t.j)
      && t.Part(job.l) == Tab(t.w, job.l, t.lo) && t.Part(job.l).Slot(Shr(i, t.w)) == g.s
  {
    hide Pos, LenAt, BitsAt, Low, Rev, Pow2, Shr, Shl, Stage.Shape;
    var d := |g.st| - 1;
    TopFacts(job, g);
    var t := g.tabs[g.st[d]];
    TopFull(job, g);
    CounterBound(i, g.s, t.w + job.l);
    PrefixTest(i, t.w, g.x[d]);
    CounterSlot(i, t.w, job.l, g.x[d]);
    Pow2Mono(job.l, t.j);
  }

  ghost predicate Linked(job: Job, g: Stage, g': Stage, w: nat, i: nat)
    requires job.Valid()
  {
    if |g.st| == 0 then
      g'.hp == g.hp
    else if w < job.l then
      false
    else
      var a := g.st[|g.st| - 1] + Shr(i, w - job.l);
      && a < |g.hp| && a <= g.hn
      && g'.hp == g.hp[a := Huft(BitsAt(job, w, g.s), job.l, g.hn - a)]
  }

  /** No slot of the new table is due yet. */
  lemma NotDue(l: nat, tabs: Tabs, b: nat, s: nat, idx: nat)
    requires b in tabs && tabs[b].Fits() && tabs[b].lo == s
    ensures !Due(l, tabs, b, s, b, idx)
  {
    hide Rev, Shl;
  }

  lemma PushLink(job: Job, g: Stage, g': Stage, w: nat, i: nat, top: nat, idx: nat)
    requires job.Valid() && g.Shape(job) && Pushed(job, g, g', w, i)
    requires g.s < Pow2(15) && w < LenAt(job.c, g.s) && g.hn !in g.tabs
    requires |g.st| > 0 && Linked(job, g, g', w, i)
    requires top == g.st[|g.st| - 1] && top in g.tabs && g.tabs[top].Fits() && g.tabs[top].Part(job.l).j == job.l
    requires idx == Shr(i, g.tabs[top].w) && g.tabs[top].Part(job.l).Slot(idx) == g.s
    requires 1 <= BitsAt(job, w, g.s)
    ensures top in g'.tabs && g'.tabs[top] == g.tabs[top] && top + idx < |g'.hp|
    ensures SlotOK(job, g'.hp, g'.tabs, top, idx)
  {
    hide Pos, LenAt, BitsAt, Low, Rev, Pow2, Shr, Shl, Saved, Off, LeafOK, Stack, Open, Tables;
  }

  lemma SomeOpen(job: Job, g: Stage, b: nat)
    requires job.Valid() && g.Shape(job) && b in g.tabs
    ensures 0 < |g.st| <= |g.x| && g.st[|g.st| - 1] in g.tabs
    ensures g.tabs[b].Fits() && Space(g.tabs, g.hn0, g.hn)
  {
    hide Pos, LenAt, Low, BitsAt, TabOK, Rev, Nested, Complete, Off, Pow2;
    TabFacts(job, g.tabs[b]);
    Pow2Pos(15 - g.tabs[b].w);
  }

  lemma PushSlot(job: Job, g: Stage, g': Stage, w: nat, i: nat, b: nat, idx: nat)
    requires job.Valid() && g.Shape(job) && Pushed(job, g, g', w, i)
    requires g.s < Pow2(15) && w < LenAt(job.c, g.s)
    requires i < Pow2(15) && Rev(i, 15) == g.s
    requires Linked(job, g, g', w, i)
    requires Done(job, g.hp, g.tabs, g.Top(), g.s, g.hn)
    requires b in g'.tabs && b != g.hn && g'.tabs[b].Fits() && Due(job.l, g'.tabs, g.hn, g.s, b, idx)
    requires b + idx < |g'.hp|
    ensures SlotOK(job, g'.hp, g'.tabs, b, idx)
  {
    hide Pos, LenAt, Low, Rev, Shr, Shl, Pow2, Off, BitsAt, SlotOK, Tables, Stack, Open, Space, Complete;
    PushTables(job, g, g', w, i);
    assert b in g.tabs && g.tabs[b] == g'.tabs[b];
    SomeOpen(job, g, b);
    var top := g.st[|g.st| - 1];
    var li := Shr(i, g.tabs[top].w);
    TopFull(job, g);
    LinkSlot(job, g, i);
    if b == top && idx == li {
      PushLink(job, g, g', w, i, top, idx);
    } else {
      if b == top && g.tabs[b].Part(job.l).Slot(idx) == g.s {
        SlotInjective(g.tabs[b].Part(job.l), idx, li);
      }
      Pow2Mono(g.tabs[b].Part(job.l).j, g.tabs[b].j);
      SpaceDisjoint(g.tabs, g.hn0, g.hn, b, idx, top, li);
      SlotKept(job, g.hp, g'.hp, g.tabs, g'.tabs, b, idx);
    }
  }

  lemma PushDone(job: Job, g: Stage, g': Stage, w: nat, i: nat)
    requires job.Valid() && g.Shape(job) && Pushed(job, g, g', w, i) && g'.Shape(job)
    requires g.s < Pow2(15) && w < LenAt(job.c, g.s)
    requires i < Pow2(15) && Rev(i, 15) == g.s
    requires Linked(job, g, g', w, i)
    requires Done(job, g.hp, g.tabs, g.Top(), g.s, g.hn)
    ensures Done(job, g'.hp, g'.tabs, g'.Top(), g'.s, g'.hn)
  {
    hide Pos, LenAt, Low, Rev, Shr, Shl, Saved, Off, SlotOK, BitsAt, Pow2;
    assert g'.Top() == g.hn;
    forall b, idx: nat | b in g'.tabs && Due(job.l, g'.tabs, g.hn, g.s, b, idx) && b + idx < |g'.hp|
      ensures SlotOK(job, g'.hp, g'.tabs, b, idx)
    {
      if b == g.hn {
        NotDue(job.l, g'.tabs, b, g.s, idx);
      } else {
        PushSlot(job, g, g', w, i, b, idx);
      }
    }
  }

  // ---- writing the slots of one code ----

  /** The slots of table t whose low bits continue i are those in the interval of the code at s. */
  lemma CodeSlots(t: Tab, i: nat, x: nat, k: nat, idx: nat)
    requires t.Fits() && t.w < k <= t.w + t.j
    requires i < Pow2(k) && Low(i, t.w) == x && Rev(x, 15) == t.lo
    requires idx < Pow2(t.j)
    ensures Low(idx, k - t.w) == Shr(i, t.w) <==> Rev(i, 15) <= t.Slot(idx) < Rev(i, 15) + Pow2(15 - k)
  {
    hide Low, Shr, Shl, Rev, Pow2;
    var m, n := k - t.w, t.j - (k - t.w);
    CounterSlot(i, t.w, m, x);
    SlotParts(t, m, idx);
    var a, b := Rev(idx, m), Rev(Shr(i, t.w), m);
    RevLow(idx, m);
    if Rev(i, 15) <= t.Slot(idx) < Rev(i, 15) + Pow2(15 - k) {
      var rest := t.Slot(idx) - t.lo;
      SplitUnique(rest, 15 - k, Shl(Rev(Shr(idx, m), n), 15 - t.w - t.j), a);
      SplitUnique(rest, 15 - k, t.Slot(idx) - Rev(i, 15), b);
      LowBound(idx, m);
      RevInjective(Low(idx, m), Shr(i, t.w), m);
    }
  }

  lemma SlotParts(t: Tab, m: nat, idx: nat)
    requires t.Fits() && m <= t.j
    ensures var tail := Shl(Rev(Shr(idx, m), t.j - m), 15 - t.w - t.j);
      && t.Slot(idx) == t.lo + Shl(Rev(idx, m), 15 - t.w - m) + tail
      && tail < Pow2(15 - t.w - m)
  {
    hide Low, Shr, Shl;
    var n, p := t.j - m, 15 - t.w - t.j;
    RevSplit(idx, m, n);
    ShlAdd(Shl(Rev(idx, m), n), Rev(Shr(idx, m), n), p);
    ShlShl(Rev(idx, m), n, p);
    ShlBound(Rev(Shr(idx, m), n), n, p);
  }

  /** The code of length k and rank r is next to be placed, and it fits the innermost table. */
  ghost predicate Next(job: Job, g: Stage, k: nat, r: nat, i: nat)
    requires job.Valid()
  {
    && 1 <= k <= job.g && r < job.c[k] && g.s == Shl(NextCode(job.c, k) + r, 15 - k)
    && i < Pow2(15) && Rev(i, 15) == g.s
    && |g.st| > 0 && g.st[|g.st| - 1] in g.tabs
    && g.tabs[g.st[|g.st| - 1]].w < k <= g.tabs[g.st[|g.st| - 1]].w + job.l
  }

  /** Every slot of a string below s is right. */
  ghost predicate DoneBelow(job: Job, hp: seq<Huft>, tabs: Tabs, s: nat, hn: nat)
    requires job.Valid() && hn <= |hp|
    requires forall b | b in tabs :: tabs[b].Fits() && b + Pow2(tabs[b].j) <= hn
  {
    forall b, idx: nat | b in tabs && idx < Pow2(tabs[b].Part(job.l).j) && tabs[b].Part(job.l).Slot(idx) < s
      && b + idx < |hp| ::
      SlotOK(job, hp, tabs, b, idx)
  }

  /** hp' is hp with e in the slots of the table at q whose m low bits are f. */
  ghost predicate Filled(hp: seq<Huft>, hp': seq<Huft>, q: nat, j: nat, m: nat, f: nat, e: Huft)
  {
    && q + Pow2(j) <= |hp| == |hp'|
    && (forall idx: nat | idx < Pow2(j) :: hp'[q + idx] == if Low(idx, m) == f then e else hp[q + idx])
    && (forall a | 0 <= a < |hp| && !(q <= a < q + Pow2(j)) :: hp'[a] == hp[a])
  }

  lemma CodeFacts(job: Job, s: nat, k: nat, r: nat)
    requires job.Valid() && 1 <= k <= job.g && r < job.c[k] && s == Shl(NextCode(job.c, k) + r, 15 - k)
    ensures s < s + Pow2(15 - k) <= Pow2(15) && LenAt(job.c, s) == k && RankAt(job.c, s) == r
    ensures Low(s, 15 - k) == 0
  {
    hide LenAt, RankAt, Low, Shl, Off, Pos, NextCode, Pow2;
    Pow2Pos(15 - k);
    LowOfMultiple(NextCode(job.c, k) + r, 15 - k, 15 - k);
    OwnedBy(job.c, k, r, s);
    BelowFull(job, k, r);
  }

  /** What is known where the next code is placed. */
  lemma NextFacts(job: Job, g: Stage, k: nat, r: nat, i: nat)
    requires job.Valid() && g.Shape(job) && Next(job, g, k, r, i)
    ensures g.s + Pow2(15 - k) <= Pow2(15) && LenAt(job.c, g.s) == k && RankAt(job.c, g.s) == r
    ensures Low(g.s, 15 - k) == 0 && i < Pow2(k)
    ensures var t := g.tabs[g.st[|g.st| - 1]];
      t.Fits() && InRange(t, g.s) && k <= t.w + t.j && Low(i, t.w) == g.x[|g.st| - 1]
      && Rev(g.x[|g.st| - 1], 15) == t.lo
  {
    hide LenAt, RankAt, Low, Shl, Rev, BitsAt, Off, Pos, NextCode, Pow2;
    CodeFacts(job, g.s, k, r);
    CounterBound(i, g.s, k);
    var t := g.tabs[g.st[|g.st| - 1]];
    TableHolds(job, t, g.s);
    PrefixTest(i, t.w, g.x[|g.st| - 1]);
  }

  lemma BelowFull(job: Job, k: nat, r: nat)
    requires job.Valid() && 1 <= k <= job.g && r < job.c[k]
    ensures Shl(NextCode(job.c, k) + r, 15 - k) + Pow2(15 - k) <= Pow2(15)
  {
    hide Shl;
    ShlGap(NextCode(job.c, k) + r, End(job.c, k), 15 - k);
    PosMono(job.c, k, job.g);
    CompletePos(job.c, job.g, job.g);
  }

  lemma LeafSame(job: Job, t: Tab, x: nat, y: nat, e: Huft)
    requires job.Valid() && LeafOK(job, t, x, e)
    requires LenAt(job.c, y) == LenAt(job.c, x) && RankAt(job.c, y) == RankAt(job.c, x)
    ensures LeafOK(job, t, y, e)
  {
    hide LenAt, RankAt, Off, Complete, Pos, LeafExop, LeafBase;
  }

  /** A slot of an outer table that the code at s could start is the link already made at s. */
  lemma OuterSlot(job: Job, g: Stage, k: nat, r: nat, i: nat, b: nat, idx: nat)
    requires job.Valid() && g.Shape(job) && Next(job, g, k, r, i)
    requires b in g.tabs && b != g.st[|g.st| - 1] && g.tabs[b].Fits() && idx < Pow2(g.tabs[b].Part(job.l).j)
    requires g.s <= g.tabs[b].Part(job.l).Slot(idx) < g.s + Pow2(15 - k)
    ensures g.tabs[b].Part(job.l).Slot(idx) == g.s
  {
    hide LenAt, RankAt, Low, Shl, Rev, Shr, BitsAt, Off, Pos, Pow2, Complete, Saved, NextCode;
    var t := g.tabs[b].Part(job.l);
    Pow2Pos(15 - t.w - t.j);
    SlotRange(t, idx);
    assert b in g.st;
    var d :| 0 <= d < |g.st| && g.st[d] == b;
    assert t.w + job.l <= g.tabs[g.st[|g.st| - 1]].w;
    assert t.w + t.j < k;
    CodeFacts(job, g.s, k, r);
    SlotAligned(t, idx);
    LowZeroWeaken(t.Slot(idx), 15 - t.w - t.j, 15 - k);
    AlignedEqual(g.s, t.Slot(idx), 15 - k);
  }

  /** A table that receives a code's own entry has at most l bits. */
  lemma NarrowTop(job: Job, t: Tab, s: nat)
    requires job.Valid() && TabOK(job, t) && InRange(t, s) && s < Pow2(15) && LenAt(job.c, s) <= t.w + job.l
    ensures t.j <= job.l
  {
    hide LenAt, RankAt, Low, Off, Pos, Level, Pow2, TableBits;
    LenAtMono(job.c, t.lo, s);
    SmallBits(job, t.w, t.lo);
  }

  lemma SmallBits(job: Job, w: nat, x: nat)
    requires job.g <= 15 && LenAt(job.c, x) <= w + job.l
    ensures BitsAt(job, w, x) <= job.l
  {
    hide LenAt, RankAt, Grow, Pow2;
  }

  lemma NextNarrow(job: Job, g: Stage, k: nat, r: nat, i: nat)
    requires job.Valid() && g.Shape(job) && Next(job, g, k, r, i)
    ensures g.tabs[g.st[|g.st| - 1]].j <= job.l
  {
    hide LenAt, RankAt, Low, Shl, Rev, BitsAt, Off, Pos, NextCode, Pow2, Stage.Shape, TabOK;
    CodeFacts(job, g.s, k, r);
    Pow2Pos(15 - k);
    TopFacts(job, g);
    NarrowTop(job, g.tabs[g.st[|g.st| - 1]], g.s);
  }

  lemma FillSlot(job: Job, g: Stage, hp': seq<Huft>, k: nat, r: nat, i: nat, e: Huft, b: nat, idx: nat)
    requires job.Valid() && g.Shape(job) && Next(job, g, k, r, i)
    requires Done(job, g.hp, g.tabs, g.Top(), g.s, g.hn)
    requires var q := g.st[|g.st| - 1];
      && LeafOK(job, g.tabs[q], g.s, e)
      && k >= g.tabs[q].w
      && Filled(g.hp, hp', q, g.tabs[q].j, k - g.tabs[q].w, Shr(i, g.tabs[q].w), e)
    requires b in g.tabs && g.tabs[b].Fits() && idx < Pow2(g.tabs[b].Part(job.l).j) && b + idx < |hp'|
    requires g.tabs[b].Part(job.l).Slot(idx) < g.s + Pow2(15 - k)
    ensures SlotOK(job, hp', g.tabs, b, idx)
  {
    hide LenAt, RankAt, Low, Shl, Rev, Shr, BitsAt, Off, Pos, Pow2, Complete, Stack, Tables, Open, LeafOK, LinkOK,
      NextCode;
    var q := g.st[|g.st| - 1];
    var t := g.tabs[q];
    SomeOpen(job, g, b);
    NextFacts(job, g, k, r, i);
    NextNarrow(job, g, k, r, i);
    var x := g.tabs[b].Part(job.l).Slot(idx);
    if b == q {
      CodeSlots(t, i, g.x[|g.st| - 1], k, idx);
      if Low(idx, k - t.w) == Shr(i, t.w) {
        OwnedBy(job.c, k, r, x);
        LeafSame(job, t, g.s, x, e);
      } else {
        SlotKept(job, g.hp, hp', g.tabs, g.tabs, b, idx);
      }
    } else {
      if g.s <= x {
        OuterSlot(job, g, k, r, i, b, idx);
      }
      Pow2Mono(g.tabs[b].Part(job.l).j, g.tabs[b].j);
      SlotKept(job, g.hp, hp', g.tabs, g.tabs, b, idx);
    }
  }

  // ---- backing up ----

  /** The code from s0 to g.s has just been placed; st still holds the tables open at s0. */
  ghost predicate Popping(job: Job, g: Stage, s0: nat)
    requires job.Valid()
  {
    && g.hn <= |g.hp| && Tables(job, g.tabs, g.hn0, g.hn) && Stack(job, g.tabs, g.st, g.x)
    && |g.st| > 0 && s0 < g.s <= Pow2(15)
    && (forall d | 0 <= d < |g.st| :: InRange(g.tabs[g.st[d]], s0) && g.s <= g.tabs[g.st[d]].Hi())
    && (forall b | b in g.tabs :: b in g.st || (g.tabs[b].Fits() && g.tabs[b].Hi() <= g.s))
    && (var n := g.tabs[g.st[|g.st| - 1]].w + job.l; n <= 15 ==> Low(g.s, 15 - n) == 0)
    && DoneBelow(job, g.hp, g.tabs, g.s, g.hn)
  }

  lemma NestedBelow(l: nat, tabs: Tabs, st: seq<nat>, d: nat)
    requires Nested(l, tabs, st) && d < |st|
    ensures st[d] in tabs && st[|st| - 1] in tabs && tabs[st[d]].w <= tabs[st[|st| - 1]].w
  {
  }

  /** The strings of a code lie inside every open table. */
  lemma CodeInside(t: Tab, s: nat, k: nat)
    requires InRange(t, s) && t.w < k <= 15 && Low(s, 15 - k) == 0 && Low(t.lo, 15 - t.w) == 0
    ensures s + Pow2(15 - k) <= t.Hi()
  {
    hide Low;
    LowPow2(15 - t.w, 15 - k);
    LowZeroWeaken(t.lo, 15 - t.w, 15 - k);
    LowZeroAdd(t.lo, Pow2(15 - t.w), 15 - k);
    AlignedGap(s, t.Hi(), 15 - k);
  }

  lemma FillDone(job: Job, g: Stage, hp': seq<Huft>, k: nat, r: nat, i: nat, e: Huft)
    requires job.Valid() && g.Inv(job) && Next(job, g, k, r, i)
    requires var q := g.st[|g.st| - 1];
      && LeafOK(job, g.tabs[q], g.s, e)
      && k >= g.tabs[q].w
      && Filled(g.hp, hp', q, g.tabs[q].j, k - g.tabs[q].w, Shr(i, g.tabs[q].w), e)
    ensures DoneBelow(job, hp', g.tabs, g.s + Pow2(15 - k), g.hn)
  {
    hide LenAt, RankAt, Low, Shl, Rev, Shr, BitsAt, Off, Pos, Pow2, SlotOK, LeafOK, Stack, Open, NextCode;
    forall b, idx: nat | b in g.tabs && idx < Pow2(g.tabs[b].Part(job.l).j)
      && g.tabs[b].Part(job.l).Slot(idx) < g.s + Pow2(15 - k) && b + idx < |hp'|
      ensures SlotOK(job, hp', g.tabs, b, idx)
    {
      FillSlot(job, g, hp', k, r, i, e, b, idx);
    }
  }

  lemma FillPopping(job: Job, g: Stage, g': Stage, k: nat, r: nat, i: nat, e: Huft)
    requires job.Valid() && g.Inv(job) && Next(job, g, k, r, i)
    requires var q := g.st[|g.st| - 1];
      && LeafOK(job, g.tabs[q], g.s, e)
      && k >= g.tabs[q].w
      && Filled(g.hp, g'.hp, q, g.tabs[q].j, k - g.tabs[q].w, Shr(i, g.tabs[q].w), e)
    requires g' == g.(hp := g'.hp, s := g.s + Pow2(15 - k))
    ensures Popping(job, g', g.s)
  {
    hide LenAt, RankAt, Low, Shl, Rev, Shr, BitsAt, Off, Pos, Pow2, SlotOK, LeafOK, Saved, NextCode, TabOK,
      Done, DoneBelow, Narrow, Nested, Complete;
    FillDone(job, g, g'.hp, k, r, i, e);
    StackIn(job, g.tabs, g.st, g.x);
    CodeFacts(job, g.s, k, r);
    forall d | 0 <= d < |g.st|
      ensures InRange(g.tabs[g.st[d]], g.s) && g'.s <= g.tabs[g.st[d]].Hi()
    {
      TabFacts(job, g.tabs[g.st[d]]);
      NestedBelow(job.l, g.tabs, g.st, d);
      CodeInside(g.tabs[g.st[d]], g.s, k);
    }
    PopAlign(g.s, k, g.tabs[g.st[|g.st| - 1]].w + job.l);
  }

  lemma PopAlign(s: nat, k: nat, n: nat)
    requires k <= 15 && Low(s, 15 - k) == 0 && k <= n
    ensures n <= 15 ==> Low(s + Pow2(15 - k), 15 - n) == 0
  {
    hide Low, Pow2;
    LowPow2(15 - k, 15 - k);
    LowZeroAdd(s, Pow2(15 - k), 15 - k);
    if n <= 15 {
      LowZeroWeaken(s + Pow2(15 - k), 15 - k, 15 - n);
    }
  }

  lemma SavedPrefix(tabs: Tabs, st: seq<nat>, x: seq<nat>, n: nat)
    requires Saved(tabs, st, x) && n <= |st|
    ensures Saved(tabs, st[..n], x)
  {
    hide Rev, Pow2;
  }

  lemma NestedPrefix(l: nat, tabs: Tabs, st: seq<nat>, n: nat)
    requires Nested(l, tabs, st) && n <= |st|
    ensures Nested(l, tabs, st[..n])
    ensures 0 < n < |st| ==> st[n - 1] in tabs && st[n] in tabs && tabs[st[n - 1]].w + l == tabs[st[n]].w
  {
  }

  lemma ClosedPrefix(tabs: Tabs, st: seq<nat>, s: nat, n: nat)
    requires |st| == n + 1
    requires forall b | b in tabs :: b in st || (tabs[b].Fits() && tabs[b].Hi() <= s)
    requires st[n] in tabs ==> tabs[st[n]].Fits() && tabs[st[n]].Hi() <= s
    ensures forall b | b in tabs :: b in st[..n] || (tabs[b].Fits() && tabs[b].Hi() <= s)
  {
    hide Pow2;
    forall b | b in tabs
      ensures b in st[..n] || (tabs[b].Fits() && tabs[b].Hi() <= s)
    {
      if b in st && b != st[n] {
        var d :| 0 <= d < |st| && st[d] == b;
        assert st[..n][d] == b;
      }
    }
  }

  /** A table whose range the next code has left is full and can be dropped. */
  lemma PopOne(job: Job, g: Stage, s0: nat)
    requires job.Valid() && Popping(job, g, s0) && |g.st| > 1
    requires !InRange(g.tabs[g.st[|g.st| - 1]], g.s)
    ensures Popping(job, g.(st := g.st[..|g.st| - 1]), s0)
  {
    hide LenAt, Low, Rev, BitsAt, Off, Pos, Pow2, SlotOK, DoneBelow, Complete, TabOK, Saved, Nested, Narrow, Space;
    var n := |g.st| - 1;
    StackIn(job, g.tabs, g.st, g.x);
    var t := g.tabs[g.st[n]];
    TabFacts(job, t);
    HiAligned(t);
    assert g.s == t.Hi();
    SavedPrefix(g.tabs, g.st, g.x, n);
    NestedPrefix(job.l, g.tabs, g.st, n);
    ClosedPrefix(g.tabs, g.st, g.s, n);
    var st := g.st[..n];
    forall d | 0 <= d < n
      ensures st[d] == g.st[d]
    {
    }
    assert st[|st| - 1] == g.st[n - 1];
  }

  lemma HiAligned(t: Tab)
    requires t.Fits() && Low(t.lo, 15 - t.w) == 0
    ensures Low(t.Hi(), 15 - t.w) == 0
  {
    hide Low;
    LowPow2(15 - t.w, 15 - t.w);
    LowZeroAdd(t.lo, Pow2(15 - t.w), 15 - t.w);
  }

  /** When the innermost table still has room, or all is assigned, the invariant holds again. */
  lemma PopShape(job: Job, g: Stage, s0: nat)
    requires job.Valid() && Popping(job, g, s0)
    requires g.s < Pow2(15) ==> InRange(g.tabs[g.st[|g.st| - 1]], g.s)
    ensures g.Shape(job)
  {
    hide LenAt, Low, Rev, BitsAt, Off, Pos, Pow2, SlotOK, DoneBelow, Complete, Saved, TabOK, Narrow, Nested, Space;
    StackIn(job, g.tabs, g.st, g.x);
    if g.s < Pow2(15) {
      TabFacts(job, g.tabs[g.st[|g.st| - 1]]);
      forall d | 0 <= d < |g.st|
        ensures InRange(g.tabs[g.st[d]], g.s)
      {
        TabFacts(job, g.tabs[g.st[d]]);
        NestedBelow(job.l, g.tabs, g.st, d);
        RangeNested(g.tabs[g.st[d]], g.tabs[g.st[|g.st| - 1]], s0);
      }
    }
  }

  lemma RangeNested(a: Tab, b: Tab, s: nat)
    requires InRange(a, s) && InRange(b, s) && a.w <= b.w
    requires Low(a.lo, 15 - a.w) == 0 && Low(b.lo, 15 - b.w) == 0
    ensures b.Hi() <= a.Hi()
  {
    hide Low, Pow2;
    HiAligned(a);
    LowZeroWeaken(a.Hi(), 15 - a.w, 15 - b.w);
    AlignedGap(b.lo, a.Hi(), 15 - b.w);
  }

  /** No slot of an outer table starts at the new s: its last due slot is the link inside. */
  lemma OuterDone(job: Job, g: Stage, s0: nat, d: nat, idx: nat)
    requires job.Valid() && Popping(job, g, s0) && g.s < Pow2(15)
    requires InRange(g.tabs[g.st[|g.st| - 1]], g.s)
    requires d < |g.st| - 1 && g.tabs[g.st[d]].Fits()
    ensures g.tabs[g.st[d]].Part(job.l).Slot(idx) != g.s
  {
    hide LenAt, Low, Rev, BitsAt, Off, Pos, Pow2, SlotOK, DoneBelow, Complete, Saved, Shl, TabOK, Space;
    var t, u, v := g.tabs[g.st[d]], g.tabs[g.st[d + 1]], g.tabs[g.st[|g.st| - 1]];
    TabFacts(job, t);
    TabFacts(job, u);
    TabFacts(job, v);
    NestedBelow(job.l, g.tabs, g.st, d + 1);
    RangeNested(u, v, s0);
    OuterApart(t.Part(job.l), u, s0, g.s, idx);
  }

  /** A slot exactly filled by table u cannot start strictly inside it. */
  lemma OuterApart(t: Tab, u: Tab, s0: nat, s: nat, idx: nat)
    requires t.Fits() && u.Fits() && u.w == t.w + t.j
    requires Low(t.lo, 15 - t.w) == 0 && Low(u.lo, 15 - u.w) == 0
    requires u.lo <= s0 < s < u.Hi()
    ensures t.Slot(idx) != s
  {
    hide Low, Pow2, Rev, Shl;
    SlotAligned(t, idx);
    if t.Slot(idx) == s {
      AlignedEqual(u.lo, s, 15 - u.w);
    }
  }

  lemma PopDone(job: Job, g: Stage, s0: nat)
    requires job.Valid() && Popping(job, g, s0)
    requires g.s < Pow2(15) ==> InRange(g.tabs[g.st[|g.st| - 1]], g.s)
    ensures g.Inv(job)
  {
    hide LenAt, Low, Rev, BitsAt, Off, Pos, Pow2, SlotOK, Complete, Saved, Shl, Nested;
    PopShape(job, g, s0);
    forall b, idx: nat | b in g.tabs && Due(job.l, g.tabs, g.Top(), g.s, b, idx) && b + idx < |g.hp|
      ensures SlotOK(job, g.hp, g.tabs, b, idx)
    {
      var t := g.tabs[b].Part(job.l);
      if t.Slot(idx) == g.s {
        Pow2Pos(15 - t.w - t.j);
        SlotRange(t, idx);
        assert b in g.st;
        var d :| 0 <= d < |g.st| && g.st[d] == b;
        OuterDone(job, g, s0, d, idx);
      }
    }
  }
}
