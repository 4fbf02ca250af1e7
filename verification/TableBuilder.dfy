/** The part of huft_build in inftrees.c that generates the codes and fills the tables. */
module TableBuilder {
  import opened Arith
  import opened CanonicalCode
  import opened HuftSpec
  import opened HuftInvariant
  import opened HuftSteps
  import opened HuftLog

  const MANY: nat := 1440

  /** The table-sizing loop. */
  method SizeTable(c: Counts, g: nat, l: nat, w: nat, k: nat, n: nat) returns (j: nat)
    requires w < k <= g <= 15 && 0 < n && 0 < l
    ensures j == TableBits(c, g, l, w, k, n)
  {
    var z := g - w;
    z := if z > l then l else z;
    j := k - w;
    var f := Pow2(j);
    if f > n {
      f := f - n;
      if j < z {
        j := j + 1;
        while j < z
          invariant k - w < j <= z && f > 0
          invariant Grow(c, z, w, j, f) == TableBits(c, g, l, w, k, n)
        {
          f := 2 * f;
          if f <= c[w + j] {
            break;
          }
          f := f - c[w + j];
          j := j + 1;
        }
      }
    }
  }

  /** The local variables of the code-generating loop. */
  datatype Regs = Regs(
    hn: nat,        // entries of the table space in use
    h: int,         // table level
    w: int,         // bits before this table
    q: nat,         // current table
    z: nat,         // entries in the current table
    i: nat,         // current code, first bit lowest
    p: nat,         // next value
    r: Huft,        // table entry being made
    u: seq<nat>,    // table stack
    x: seq<nat>)    // code stack

  /** The invariant's view of the registers: hp holds tabs, and s is the first string not assigned. */
  ghost function View(a: Regs, hp: seq<Huft>, tabs: Tabs, s: nat, hn0: nat): Stage
    requires -1 <= a.h < |a.u|
  {
    Stage(hp, tabs, a.u[..a.h + 1], a.x, s, hn0, a.hn)
  }

  ghost predicate Ready(job: Job, a: Regs, hp: seq<Huft>, tabs: Tabs, s: nat, hn0: nat)
    requires job.Valid()
  {
    && -1 <= a.h < 15 && |a.u| == 15 && |a.x| == 16
    && View(a, hp, tabs, s, hn0).Inv(job)
    && (if a.h < 0 then a.w + job.l == 0 else a.u[a.h] in tabs && a.w == tabs[a.u[a.h]].w)
  }

  /** The code of length k that has n of its length left, itself included, is next. */
  ghost predicate At(job: Job, i: nat, s: nat, k: nat, n: nat)
    requires job.Valid()
  {
    && 1 <= k <= job.g && 0 < n <= job.c[k]
    && s == Start(job.c, k, job.c[k] - n)
    && i < Pow2(15) && Rev(i, 15) == s
  }

  /** The current table is the innermost open one. */
  ghost predicate Current(a: Regs, tabs: Tabs) {
    0 <= a.h < |a.u| && a.q == a.u[a.h] && a.q in tabs && a.z == Pow2(tabs[a.q].j)
  }

  /** Makes one table and links it to the table around it. */
  method OpenTable(job: Job, hp: array<Huft>, a: Regs, k: nat, n: nat, ghost tabs: Tabs, ghost s: nat, ghost hn0: nat,
                   ghost log: seq<nat>)
    returns (ok: bool, b: Regs, ghost tabs': Tabs, ghost log': seq<nat>)
    requires job.Valid() && Ready(job, a, hp[..], tabs, s, hn0) && At(job, a.i, s, k, n) && k > a.w + job.l
    requires hp.Length >= MANY || (a.h < 0 && a.hn + Pow2(job.l) <= hp.Length)
    modifies hp
    ensures !ok ==> a.hn + Pow2(BitsAt(job, a.w + job.l, s)) > MANY && hp[..] == old(hp[..])
    ensures 0 <= a.w + job.l <= 15 && Low(s, 15 - (a.w + job.l)) == 0
    ensures ok ==> Ready(job, b, hp[..], tabs', s, hn0) && Current(b, tabs')
    ensures ok ==> a.hn !in tabs && tabs' == tabs[a.hn := Tab(b.w, BitsAt(job, b.w, s), s)]
    ensures ok ==> b.h == a.h + 1 && b.w == a.w + job.l && b.i == a.i && b.p == a.p
    ensures ok ==> b.hn == a.hn + Pow2(BitsAt(job, b.w, s)) <= hp.Length && b.hn <= MANY
    ensures ok ==> Pushed(job, View(a, old(hp[..]), tabs, s, hn0), View(b, hp[..], tabs', s, hn0), b.w, a.i)
    ensures ok ==> Linked(job, View(a, old(hp[..]), tabs, s, hn0), View(b, hp[..], tabs', s, hn0), b.w, a.i)
    ensures ok ==> log' == LinkLog(View(a, old(hp[..]), tabs, s, hn0), b.w, job.l, a.i, log)
    ensures a.h < 0 ==> b.r == a.r
  {
    hide Stage.Shape, Stage.Inv, BitsAt, LenAt, RankAt, TableBits, Rev, Shr, Pow2, Complete, Low, Start;
    ghost var g := View(a, hp[..], tabs, s, hn0);
    var h, w := a.h + 1, a.w + job.l;
    OpenFacts(job, g, w, k, n, a.i);
    var j := SizeTable(job.c, job.g, job.l, w, k, n);
    var z := Pow2(j);
    b := a;
    tabs', log' := tabs, log;
    ok := a.hn + z <= MANY;
    if ok {
      var q := a.hn;
      var r := a.r;
      tabs' := tabs[q := Tab(w, j, s)];
      if h > 0 {
        var f := Shr(a.i, w - job.l);
        r := Huft(j, job.l, q - a.u[h - 1] - f);
        hp[a.u[h - 1] + f] := r;
        log' := log + [a.u[h - 1] + f];
      }
      b := Regs(q + z, h, w, q, z, a.i, a.p, r, a.u[h := q], a.x[h := a.i]);
      assert b.u[..h + 1] == g.st + [q];
      OpenInv(job, g, View(b, hp[..], tabs', s, hn0), w, k, n, a.i);
    }
  }

  /** What is known before a table is made after w bits for the code of length k, n of them left. */
  lemma OpenFacts(job: Job, g: Stage, w: int, k: nat, n: nat, i: nat)
    requires job.Valid() && g.Inv(job) && w < k <= job.g && 0 < n <= job.c[k]
    requires g.s == Start(job.c, k, job.c[k] - n) && i < Pow2(15) && Rev(i, 15) == g.s
    requires if |g.st| == 0 then w == 0 else g.st[|g.st| - 1] in g.tabs && w == g.tabs[g.st[|g.st| - 1]].w + job.l
    ensures g.s < Pow2(15) && w < LenAt(job.c, g.s) && 0 <= w <= 15 && job.g <= 15 && Low(g.s, 15 - w) == 0
    ensures BitsAt(job, w, g.s) == TableBits(job.c, job.g, job.l, w, k, n)
    ensures |g.st| < 15
    ensures |g.st| == 0 ==> i == 0 && g.s == 0 && BitsAt(job, 0, g.s) == job.l
    ensures |g.st| > 0 ==>
      var b := g.st[|g.st| - 1];
      w >= job.l && Shr(i, w - job.l) < Pow2(g.tabs[b].j) && b + Pow2(g.tabs[b].j) <= g.hn
  {
    hide BitsAt, LenAt, RankAt, TableBits, Rev, Shr, Pow2, Low, Start;
    StartFacts(job, g.s, k, n);
    if |g.st| == 0 {
      LowSmallZero(15);
      RevZeroOnly(i);
      RootBits(job);
    } else {
      LinkSlot(job, g, i);
    }
  }

  lemma RevZeroOnly(i: nat)
    requires i < Pow2(15) && Rev(i, 15) == 0
    ensures i == 0
  {
    hide Rev, Pow2;
    RevRev(i, 15);
    RevOfZero(15);
  }

  lemma OpenInv(job: Job, g: Stage, g': Stage, w: nat, k: nat, n: nat, i: nat)
    requires job.Valid() && g.Inv(job) && w < k <= job.g && 0 < n <= job.c[k]
    requires g.s == Start(job.c, k, job.c[k] - n) && i < Pow2(15) && Rev(i, 15) == g.s
    requires Pushed(job, g, g', w, i) && Linked(job, g, g', w, i) && g'.hn <= |g'.hp|
    ensures g'.Inv(job) && g.hn !in g.tabs
  {
    hide BitsAt, LenAt, RankAt, TableBits, Rev, Shr, Pow2, Complete, Low, Start, Stage.Shape, Done, Pushed, Linked;
    StartFacts(job, g.s, k, n);
    PushShape(job, g, g', w, i);
    PushDone(job, g, g', w, i);
  }

  lemma StartFacts(job: Job, s: nat, k: nat, n: nat)
    requires job.Valid() && 1 <= k <= job.g && 0 < n <= job.c[k] && s == Start(job.c, k, job.c[k] - n)
    ensures s < Pow2(15) && LenAt(job.c, s) == k && RankAt(job.c, s) == job.c[k] - n
    ensures forall w: nat | w < k :: BitsAt(job, w, s) == TableBits(job.c, job.g, job.l, w, k, n)
  {
    hide Shl, NextCode, Pow2, LenAt, RankAt, TableBits, Off, Pos;
    CodeFacts(job, s, k, job.c[k] - n);
  }

  /** The first table has exactly l bits. */
  lemma RootBits(job: Job)
    requires job.Valid()
    ensures LenAt(job.c, 0) <= job.l && BitsAt(job, 0, 0) == job.l
  {
    hide Shl, NextCode, Pow2, LenAt, RankAt, Off, Pos, End, TableBits, Low;
    LowSmallZero(15);
    BitsCover(job, 0, 0);
    LenAtBelow(job.c, 0, job.l);
    var j := BitsAt(job, 0, 0);
    Pow2Pos(15 - job.g);
    if j < job.l {
      PosMono(job.c, j, job.g - 1);
      PosNext(job.c, job.g);
      CompletePos(job.c, job.g, job.g);
      ShlMono(1, job.c[job.g], 15 - job.g);
      ShlGap(0, 1, 15 - job.g);
    }
  }

  lemma LowSmallZero(n: nat)
    ensures Low(0, n) == 0
  {
    LowSmall(0, n);
  }

  // ---- placing one code ----

  /** The next value to use, for the code of length k that has n of its length left. */
  function ValueIndex(job: Job, k: nat, n: nat): nat
    requires 1 <= k <= 15 && n <= job.c[k]
  {
    var t := Off(job.c, k) + job.c[k] - n;
    if t < |job.v| then t else |job.v|
  }

  /** Until a link overwrites it, the entry register keeps the base of the last value used. */
  ghost predicate BaseKept(job: Job, p: nat, r: Huft)
    requires job.Valid()
  {
    p <= |job.v| && (p > 0 && job.g <= job.l ==> r.base == LeafBase(job, p - 1))
  }

  method MakeEntry(job: Job, a: Regs, k: nat) returns (r: Huft, p: nat)
    requires job.Valid() && BaseKept(job, a.p, a.r) && k > a.w
    ensures r.bits == k - a.w && r.exop == LeafExop(job, a.p)
    ensures p == if a.p < |job.v| then a.p + 1 else a.p
    ensures BaseKept(job, p, r)
    ensures a.p < |job.v| ==> r.base == LeafBase(job, a.p)
  {
    p := a.p;
    r := a.r.(bits := k - a.w);
    if p >= |job.v| {
      r := r.(exop := 192);
    } else if job.v[p] < job.s {
      r := r.(exop := if job.v[p] < 256 then 0 else 96, base := job.v[p]);
      p := p + 1;
    } else {
      r := r.(exop := job.e[job.v[p] - job.s] + 80, base := job.d[job.v[p] - job.s]);
      p := p + 1;
    }
  }

  lemma EntryOK(job: Job, t: Tab, s: nat, k: nat, n: nat, e: Huft)
    requires job.Valid() && 1 <= k <= job.g && 0 < n <= job.c[k] && s == Start(job.c, k, job.c[k] - n)
    requires t.w < k <= t.w + t.j && e.bits == k - t.w && e.exop == LeafExop(job, ValueIndex(job, k, n))
    requires ValueIndex(job, k, n) < |job.v| ==> e.base == LeafBase(job, ValueIndex(job, k, n))
    requires ValueIndex(job, k, n) == |job.v| && job.g <= job.l ==> e.base == LeafBase(job, |job.v| - 1)
    ensures LeafOK(job, t, s, e)
  {
    hide LenAt, RankAt, Start, Pow2, BitsAt, TableBits, LeafBase, Complete, Pos;
    StartFacts(job, s, k, n);
  }

  method PlaceCode(job: Job, hp: array<Huft>, a: Regs, k: nat, n: nat, ghost hp0: seq<Huft>, ghost tabs: Tabs,
                   ghost s: nat, ghost hn0: nat, ghost log: seq<nat>)
    returns (b: Regs, ghost log': seq<nat>)
    requires job.Valid() && Ready(job, a, hp[..], tabs, s, hn0) && At(job, a.i, s, k, n) && Current(a, tabs)
    requires a.w < k <= a.w + job.l
    requires a.p == ValueIndex(job, k, n) && BaseKept(job, a.p, a.r)
    requires Tracked(job.l, hp0, View(a, hp[..], tabs, s, hn0), log)
    modifies hp
    ensures b == a.(p := ValueIndex(job, k, n - 1), r := b.r) && BaseKept(job, b.p, b.r)
    ensures Popping(job, View(b, hp[..], tabs, s + Pow2(15 - k), hn0), s)
    ensures Writes(hp0, hp[..], hn0, a.hn, log') && MarkedBelow(job.l, tabs, s + Pow2(15 - k), log')
    ensures forall c | 0 <= c < hp.Length && !(a.q <= c < a.q + a.z) :: hp[c] == old(hp[c])
  {
    hide Stage.Shape, Stage.Inv, LenAt, RankAt, Rev, Shr, Pow2, Low, Start, Off, LeafBase, LeafExop, LeafOK, Filled,
      Popping, Complete, Pos, Tracked, Writes, MarkedBelow, LoggedTo, NoneTwice, Unwritten;
    ghost var g := View(a, hp[..], tabs, s, hn0);
    NextHolds(job, g, k, n, a.i);
    var r, p := MakeEntry(job, a, k);
    var m := k - a.w;
    EntryOK(job, tabs[a.q], s, k, n, r);
    TrackedOnce(job.l, hp0, g, log);
    FillFresh(job, g, k, job.c[k] - n, a.i, log);
    log' := FillEntries(hp, a.q, a.z, Shr(a.i, a.w), m, r, tabs[a.q].j, log);
    b := a.(p := p, r := r);
    FillPopping(job, g, View(b, hp[..], tabs, s + Pow2(15 - k), hn0), k, job.c[k] - n, a.i, r);
    MarkedFill(job, hp0, g, hp[..], k, job.c[k] - n, a.i, r, log, log');
    FilledFrame(g.hp, hp[..], a.q, tabs[a.q].j, m, Shr(a.i, a.w), r);
    assert forall c | 0 <= c < hp.Length :: hp[..][c] == hp[c] && g.hp[c] == old(hp[c]);
  }

  lemma TrackedOnce(l: nat, hp0: seq<Huft>, g: Stage, log: seq<nat>)
    requires Tracked(l, hp0, g, log)
    ensures NoneTwice(log) && Marked(l, g.tabs, g.Top(), g.s, log)
  {
    hide NoneTwice, Marked;
  }

  lemma FilledFrame(hp: seq<Huft>, hp': seq<Huft>, q: nat, j: nat, m: nat, f: nat, e: Huft)
    requires Filled(hp, hp', q, j, m, f, e)
    ensures |hp| == |hp'|
    ensures forall a | 0 <= a < |hp| && !(q <= a < q + Pow2(j)) :: hp'[a] == hp[a]
  {
    hide Pow2, Low;
  }

  lemma NextHolds(job: Job, g: Stage, k: nat, n: nat, i: nat)
    requires job.Valid() && g.Inv(job) && At(job, i, g.s, k, n)
    requires |g.st| > 0 && g.st[|g.st| - 1] in g.tabs
    requires var t := g.tabs[g.st[|g.st| - 1]]; t.w < k <= t.w + job.l
    ensures Next(job, g, k, job.c[k] - n, i) && g.Shape(job)
    ensures var b := g.st[|g.st| - 1]; var t := g.tabs[b];
      && b + Pow2(t.j) <= g.hn <= |g.hp| && k <= t.w + t.j <= 15
      && Shr(i, t.w) < Pow2(k - t.w)
    ensures g.s + Pow2(15 - k) <= Pow2(15) && i < Pow2(k)
  {
    hide LenAt, RankAt, Rev, Shr, Pow2, Low, Off, BitsAt, NextCode, Shl, Pos, TabOK, Stack, Open;
    NextFacts(job, g, k, job.c[k] - n, i);
    StackIn(job, g.tabs, g.st, g.x);
    var t := g.tabs[g.st[|g.st| - 1]];
    CounterSlot(i, t.w, k - t.w, g.x[|g.st| - 1]);
    TabFacts(job, t);
  }

  // ---- backing up over finished tables ----

  /** i is the counter for s; it wraps to zero once all strings are assigned. */
  ghost predicate Counter(i: nat, s: nat) {
    if s < Pow2(15) then i < Pow2(15) && Rev(i, 15) == s else s == Pow2(15) && i == 0
  }

  /** Every open table was opened by an earlier code. */
  ghost predicate Settled(tabs: Tabs, st: seq<nat>, s: nat) {
    forall d | 0 <= d < |st| :: st[d] in tabs && tabs[st[d]].lo < s
  }

  lemma PopTest(job: Job, g: Stage, s0: nat, i: nat)
    requires job.Valid() && Popping(job, g, s0) && Counter(i, g.s)
    ensures |g.st| <= |g.x| && g.st[|g.st| - 1] in g.tabs
    ensures var t := g.tabs[g.st[|g.st| - 1]];
      if Low(i, t.w) == g.x[|g.st| - 1] then g.s < Pow2(15) ==> InRange(t, g.s)
      else |g.st| > 1 && !InRange(t, g.s)
  {
    hide LenAt, RankAt, Rev, Low, Off, BitsAt, Pos, TabOK, DoneBelow, Narrow, Complete, Level, Counter, Space, InRange,
      Nested;
    StackIn(job, g.tabs, g.st, g.x);
    var d := |g.st| - 1;
    TabFacts(job, g.tabs[g.st[d]]);
    PrefixCompare(g.tabs[g.st[d]], g.x[d], i, g.s, s0);
    LowNone(i);
    Pow2Zero();
    RootFirst(job.l, g.tabs, g.st);
  }

  lemma RootFirst(l: nat, tabs: Tabs, st: seq<nat>)
    requires Nested(l, tabs, st) && |st| > 0
    ensures st[0] in tabs && tabs[st[0]].w == 0
  {
  }

  lemma PrefixCompare(t: Tab, x: nat, i: nat, s: nat, s0: nat)
    requires t.Fits() && x < Pow2(t.w) && Rev(x, 15) == t.lo && Counter(i, s)
    requires InRange(t, s0) && s0 < s && t.Hi() <= Pow2(15)
    ensures Low(i, t.w) == x ==> s < Pow2(15) ==> InRange(t, s)
    ensures Low(i, t.w) != x ==> !InRange(t, s)
  {
    hide Rev, Low, Pow2;
    if s < Pow2(15) {
      PrefixTest(i, t.w, x);
    }
  }

  method BackUp(job: Job, a: Regs, ghost hp: seq<Huft>, ghost tabs: Tabs, ghost s0: nat, ghost s: nat, ghost hn0: nat)
    returns (b: Regs)
    requires job.Valid() && 0 <= a.h < 15 && |a.u| == 15 && |a.x| == 16 && a.u[a.h] in tabs
    requires Popping(job, View(a, hp, tabs, s, hn0), s0) && a.w == tabs[a.u[a.h]].w
    requires Counter(a.i, s)
    ensures b == a.(h := b.h, w := b.w) && 0 <= b.h <= a.h
    ensures Ready(job, b, hp, tabs, s, hn0) && Settled(tabs, b.u[..b.h + 1], s) && NoneBegins(job.l, tabs, b.u[b.h], s)
    ensures b.h < a.h ==> b.w + job.l <= a.w
    ensures b.h == a.h ==> b.w == a.w
  {
    hide Popping, Stage.Inv, Stage.Shape, Low, Complete, Pow2, InRange, Counter, Off, Pos, NoneBegins;
    b := a;
    PopTest(job, View(b, hp, tabs, s, hn0), s0, b.i);
    while Low(b.i, b.w) != b.x[b.h]
      invariant b == a.(h := b.h, w := b.w) && 0 <= b.h <= a.h
      invariant b.u[b.h] in tabs && b.w == tabs[b.u[b.h]].w
      invariant Popping(job, View(b, hp, tabs, s, hn0), s0)
      invariant if Low(b.i, b.w) == b.x[b.h] then s < Pow2(15) ==> InRange(tabs[b.u[b.h]], s)
                else b.h > 0 && !InRange(tabs[b.u[b.h]], s)
      invariant b.h < a.h ==> b.w + job.l <= a.w
      invariant b.h == a.h ==> b.w == a.w
      decreases b.h
    {
      ghost var g := View(b, hp, tabs, s, hn0);
      PopOne(job, g, s0);
      PopDown(job, g, s0);
      b := b.(h := b.h - 1, w := b.w - job.l);
      assert b.u[..b.h + 1] == g.st[..|g.st| - 1];
      PopTest(job, View(b, hp, tabs, s, hn0), s0, b.i);
    }
    PopDone(job, View(b, hp, tabs, s, hn0), s0);
    PopSettled(job, View(b, hp, tabs, s, hn0), s0);
    PopBegins(job, View(b, hp, tabs, s, hn0), s0);
  }

  lemma PopDown(job: Job, g: Stage, s0: nat)
    requires job.Valid() && Popping(job, g, s0) && |g.st| > 1
    ensures g.st[|g.st| - 1] in g.tabs && g.st[|g.st| - 2] in g.tabs
    ensures g.tabs[g.st[|g.st| - 2]].w + job.l == g.tabs[g.st[|g.st| - 1]].w
  {
    hide Tables, Saved, DoneBelow, Narrow, Complete, Pow2, Low;
  }

  lemma PopSettled(job: Job, g: Stage, s0: nat)
    requires job.Valid() && Popping(job, g, s0)
    ensures Settled(g.tabs, g.st, g.s)
  {
    hide Tables, DoneBelow, Narrow, Complete, Pow2, Low, Nested, Rev;
  }

  // ---- the space used ----

  lemma LevelsBelow(job: Job, tabs: Tabs, st: seq<nat>, s: nat, d: nat)
    requires job.Valid() && Nested(job.l, tabs, st) && d < |st| && s < Pow2(15)
    requires forall e | 0 <= e < |st| :: TabOK(job, tabs[st[e]]) && InRange(tabs[st[e]], s)
    requires Settled(tabs, st, s)
    ensures SizeFrom(job, s, 0) == SizeFrom(job, s, tabs[st[d]].w + job.l)
  {
    hide LenAt, RankAt, Rev, Low, Off, BitsAt, Pos, Level, Pow2, TabOK, Complete;
    var t := tabs[st[d]];
    if d > 0 {
      LevelsBelow(job, tabs, st, s, d - 1);
      assert tabs[st[d - 1]].w + job.l == t.w;
    } else {
      RootFirst(job.l, tabs, st);
    }
    NoTableHere(job, t, s);
  }

  lemma NoTableHere(job: Job, t: Tab, s: nat)
    requires job.Valid() && TabOK(job, t) && InRange(t, s) && t.lo < s
    ensures t.w < LenAt(job.c, s) && Low(s, 15 - t.w) != 0
  {
    hide LenAt, RankAt, Low, Off, BitsAt, Pos, Level, Pow2;
    LenAtMono(job.c, t.lo, s);
    if Low(s, 15 - t.w) == 0 {
      AlignedEqual(t.lo, s, 15 - t.w);
    }
  }

  lemma SizeStart(job: Job, g: Stage, w: int)
    requires job.Valid() && g.Inv(job) && g.s < Pow2(15) && Settled(g.tabs, g.st, g.s)
    requires if |g.st| == 0 then w == 0 else g.st[|g.st| - 1] in g.tabs && w == g.tabs[g.st[|g.st| - 1]].w + job.l
    ensures SizeFrom(job, g.s, 0) == SizeFrom(job, g.s, w)
  {
    hide LenAt, RankAt, Rev, Low, Off, BitsAt, Pos, Level, Pow2, TabOK, Complete, SizeFrom, Done, Space, Saved, Nested;
    if |g.st| > 0 {
      StackIn(job, g.tabs, g.st, g.x);
      LevelsBelow(job, g.tabs, g.st, g.s, |g.st| - 1);
    }
  }

  lemma {:induction false} UsedMono(job: Job, k: nat, r: nat, k': nat, r': nat)
    requires 0 < job.l && job.g <= 15 && 1 <= k <= k' <= 15 && r <= job.c[k] && r' <= job.c[k']
    requires k == k' ==> r <= r'
    ensures Used(job, k, r) <= Used(job, k', r')
    decreases k', r'
  {
    hide SizeFrom, Start;
    if k == k' && r == r' {
    } else if r' > 0 {
      UsedMono(job, k, r, k', r' - 1);
    } else if k' > 1 {
      UsedMono(job, k, r, k' - 1, job.c[k' - 1]);
    } else {
    }
  }
}
