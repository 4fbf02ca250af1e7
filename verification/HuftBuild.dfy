/** huft_build of inftrees.c: from code lengths to linked decoding tables. */
module InfTrees {
  import opened Arith
  import opened CanonicalCode
  import opened HuftSpec
  import opened HuftInvariant
  import opened HuftSteps
  import opened HuftLog
  import opened TableBuilder

  predicate Kept(hp0: seq<Huft>, hp: seq<Huft>, b: nat, idx: nat) {
    b + idx < |hp| && b + idx < |hp0| ==> hp[b + idx] == hp0[b + idx]
  }

  /** Nothing outside the space from hn0 to hn has changed, nor any slot beyond the first 2^l of a wider table. */
  ghost predicate Untouched(job: Job, hp0: seq<Huft>, hp: seq<Huft>, tabs: Tabs, hn0: nat, hn: nat) {
    && |hp| == |hp0|
    && (forall a | 0 <= a < |hp| && !(hn0 <= a < hn) :: hp[a] == hp0[a])
    && (forall b, idx: nat | b in tabs && Pow2(job.l) <= idx < Pow2(tabs[b].j) :: Kept(hp0, hp, b, idx))
  }

  /**
   * How the tables came to be: of each table the first 2^l slots
   * were written, each of them once, and no other slot was.
   */
  ghost predicate WrittenOnce(job: Job, hp0: seq<Huft>, hp: seq<Huft>, tabs: Tabs, hn0: nat, hn: nat, log: seq<nat>) {
    && Writes(hp0, hp, hn0, hn, log)
    && forall b, idx: nat | b in tabs && idx < Pow2(tabs[b].j) :: Reachable(job.l, log, b, idx)
  }

  /** The slot was written just if it is one of the first 2^l. */
  ghost predicate Reachable(l: nat, log: seq<nat>, b: nat, idx: nat) { b + idx in log <==> idx < Pow2(l) }

  // ---- the loop over all codes ----

  /** Room for the tables: the checked limit fits, or there is only one table. */
  predicate Room(job: Job, size: nat, hn0: nat) {
    size >= MANY || (job.g <= job.l && hn0 + Pow2(job.l) <= size)
  }

  /** The first table is there and serves all strings. */
  ghost predicate Rooted(job: Job, a: Regs, tabs: Tabs, hn0: nat) {
    if a.h < 0 then a.hn == hn0 else hn0 in tabs && tabs[hn0] == Tab(0, job.l, 0)
  }

  /** What holds before each code: n codes of length k are left, and the strings below s are assigned. */
  ghost predicate Loop(job: Job, a: Regs, hp0: seq<Huft>, hp: seq<Huft>, tabs: Tabs, s: nat, hn0: nat, k: nat, n: nat,
                       log: seq<nat>)
    requires job.Valid()
  {
    && 1 <= k <= job.g && n <= job.c[k] && s == Start(job.c, k, job.c[k] - n)
    && Ready(job, a, hp, tabs, s, hn0) && Counter(a.i, s) && Settled(tabs, a.u[..a.h + 1], s)
    && a.p == ValueIndex(job, k, n) && BaseKept(job, a.p, a.r)
    && a.hn == hn0 + Used(job, k, job.c[k] - n)
    && (k > a.w + job.l || Current(a, tabs))
    && Rooted(job, a, tabs, hn0) && Tracked(job.l, hp0, View(a, hp, tabs, s, hn0), log)
  }

  /** What holds while the tables for the code at s are made. */
  ghost predicate Opening(job: Job, a: Regs, hp0: seq<Huft>, hp: seq<Huft>, tabs: Tabs, s: nat, hn0: nat, k: nat,
                          n: nat, log: seq<nat>)
    requires job.Valid()
  {
    && At(job, a.i, s, k, n) && Ready(job, a, hp, tabs, s, hn0)
    && a.p == ValueIndex(job, k, n) && BaseKept(job, a.p, a.r)
    && (a.w < 15 ==> 0 <= a.w + job.l)
    && a.w + job.l >= 0
    && (a.hn + SizeFrom(job, s, a.w + job.l)
       == hn0 + Used(job, k, job.c[k] - n) + SizeFrom(job, s, 0))
    && (k > a.w + job.l || Current(a, tabs)) && k > a.w
    && Rooted(job, a, tabs, hn0) && Tracked(job.l, hp0, View(a, hp, tabs, s, hn0), log)
  }

  lemma StartOpening(job: Job, a: Regs, hp0: seq<Huft>, hp: seq<Huft>, tabs: Tabs, s: nat, hn0: nat, k: nat, n: nat,
                     log: seq<nat>)
    requires job.Valid() && Loop(job, a, hp0, hp, tabs, s, hn0, k, n, log) && n > 0
    ensures Opening(job, a, hp0, hp, tabs, s, hn0, k, n, log) && s < Pow2(15) && LenAt(job.c, s) == k
  {
    hide LenAt, RankAt, Rev, Low, Off, BitsAt, Pos, Level, Pow2, TabOK, Complete, Stage.Inv, Used, SizeFrom, LeafBase,
      Start, Tracked;
    var g := View(a, hp, tabs, s, hn0);
    StartFacts(job, s, k, n);
    SizeStart(job, g, a.w + job.l);
    StillOpen(job, g, k);
  }

  /** The innermost table starts before the next code's own length. */
  lemma StillOpen(job: Job, g: Stage, k: nat)
    requires job.Valid() && g.Inv(job) && g.s < Pow2(15) && LenAt(job.c, g.s) == k
    ensures |g.st| > 0 ==> g.st[|g.st| - 1] in g.tabs && g.tabs[g.st[|g.st| - 1]].w < k
  {
    hide LenAt, RankAt, Rev, Low, Off, BitsAt, Pos, Level, Pow2, Complete, Done, Nested, Space;
    if |g.st| > 0 {
      var t := g.tabs[g.st[|g.st| - 1]];
      LenAtMono(job.c, t.lo, g.s);
    }
  }

  lemma OpenStep(job: Job, a: Regs, b: Regs, hp0: seq<Huft>, hp: seq<Huft>, hp': seq<Huft>, tabs: Tabs, tabs': Tabs,
                 s: nat, hn0: nat, k: nat, n: nat, log: seq<nat>, log': seq<nat>)
    requires job.Valid() && Opening(job, a, hp0, hp, tabs, s, hn0, k, n, log) && k > a.w + job.l
    requires Ready(job, b, hp', tabs', s, hn0) && Current(b, tabs')
    requires a.hn !in tabs && tabs' == tabs[a.hn := Tab(b.w, BitsAt(job, b.w, s), s)]
    requires b.h == a.h + 1 && b.w == a.w + job.l && b.i == a.i && b.p == a.p
    requires b.hn == a.hn + Pow2(BitsAt(job, b.w, s))
    requires 0 <= b.w <= 15 && Low(s, 15 - b.w) == 0
    requires Linked(job, View(a, hp, tabs, s, hn0), View(b, hp', tabs', s, hn0), b.w, a.i)
    requires a.h < 0 ==> b.r == a.r
    requires Pushed(job, View(a, hp, tabs, s, hn0), View(b, hp', tabs', s, hn0), b.w, a.i)
    requires log' == LinkLog(View(a, hp, tabs, s, hn0), b.w, job.l, a.i, log)
    ensures Opening(job, b, hp0, hp', tabs', s, hn0, k, n, log')
  {
    hide LenAt, RankAt, Rev, Low, Off, BitsAt, Pos, Level, Pow2, Stage.Inv, Stage.Shape, Used, LeafBase, Start,
      Tracked, Linked, Pushed, Complete;
    StartFacts(job, s, k, n);
    OpenFacts(job, View(a, hp, tabs, s, hn0), b.w, k, n, a.i);
    InvShape(job, View(a, hp, tabs, s, hn0));
    MarkedPush(job, hp0, View(a, hp, tabs, s, hn0), View(b, hp', tabs', s, hn0), b.w, a.i, log);
    SizeStep(job, s, b.w);
  }

  lemma InvShape(job: Job, g: Stage)
    requires job.Valid() && g.Inv(job)
    ensures g.Shape(job)
  {
    hide Stage.Shape, Done;
  }

  lemma SizeStep(job: Job, s: nat, w: nat)
    requires job.Valid() && w < LenAt(job.c, s) && Low(s, 15 - w) == 0
    ensures SizeFrom(job, s, w) == Pow2(BitsAt(job, w, s)) + SizeFrom(job, s, w + job.l)
  {
    hide LenAt, Low, BitsAt, Pow2;
  }

  lemma OpeningFacts(job: Job, a: Regs, hp0: seq<Huft>, hp: seq<Huft>, tabs: Tabs, s: nat, hn0: nat, k: nat, n: nat,
                     log: seq<nat>, size: nat)
    requires job.Valid() && Opening(job, a, hp0, hp, tabs, s, hn0, k, n, log) && k > a.w + job.l && Room(job, size, hn0)
    ensures Ready(job, a, hp, tabs, s, hn0) && At(job, a.i, s, k, n)
    ensures size >= MANY || (a.h < 0 && a.hn + Pow2(job.l) <= size)
  {
    hide LenAt, RankAt, Rev, Low, Off, BitsAt, Pos, Level, Pow2, Stage.Inv, Used, LeafBase, Start, SizeFrom, Tracked;
  }

  lemma OpeningSize(job: Job, a: Regs, hp0: seq<Huft>, hp: seq<Huft>, tabs: Tabs, s: nat, hn0: nat, k: nat, n: nat,
                    log: seq<nat>)
    requires job.Valid() && Opening(job, a, hp0, hp, tabs, s, hn0, k, n, log) && k > a.w + job.l
    requires 0 <= a.w + job.l <= 15 && Low(s, 15 - (a.w + job.l)) == 0
    ensures a.hn + Pow2(BitsAt(job, a.w + job.l, s)) <= hn0 + Used(job, k, job.c[k] - n) + SizeFrom(job, s, 0)
  {
    hide LenAt, RankAt, Rev, Low, Off, BitsAt, Pos, Level, Pow2, Stage.Inv, Used, LeafBase, Start, SizeFrom, Tracked;
    StartFacts(job, s, k, n);
    SizeStep(job, s, a.w + job.l);
  }

  lemma OpenedAll(job: Job, a: Regs, hp0: seq<Huft>, hp: seq<Huft>, tabs: Tabs, s: nat, hn0: nat, k: nat, n: nat,
                  log: seq<nat>)
    requires job.Valid() && Opening(job, a, hp0, hp, tabs, s, hn0, k, n, log) && k <= a.w + job.l
    ensures a.hn == hn0 + Used(job, k, job.c[k] - n) + SizeFrom(job, s, 0)
  {
    hide LenAt, RankAt, Rev, Low, Off, BitsAt, Pos, Level, Pow2, Stage.Inv, Used, LeafBase, Start, Tracked;
    StartFacts(job, s, k, n);
  }

  method OpenAll(job: Job, hp: array<Huft>, a0: Regs, k: nat, n: nat,
                 ghost hp0: seq<Huft>, ghost tabs0: Tabs, ghost s: nat, ghost hn0: nat, ghost log0: seq<nat>)
    returns (ok: bool, a: Regs, ghost tabs: Tabs, ghost log: seq<nat>)
    requires job.Valid() && Opening(job, a0, hp0, hp[..], tabs0, s, hn0, k, n, log0) && Room(job, hp.Length, hn0)
    requires a0.hn <= MANY
    modifies hp
    ensures ok ==> Opening(job, a, hp0, hp[..], tabs, s, hn0, k, n, log) && k <= a.w + job.l && a.hn <= MANY
    ensures ok ==> a.hn == hn0 + Used(job, k, job.c[k] - n) + SizeFrom(job, s, 0)
    ensures !ok ==> hn0 + Used(job, k, job.c[k] - n) + SizeFrom(job, s, 0) > MANY
  {
    hide LenAt, RankAt, Rev, Low, Off, BitsAt, Pos, Level, Pow2, Stage.Inv, Stage.Shape, Used, LeafBase, Start,
      Tracked, Linked, Pushed, Complete, SizeFrom, Opening;
    a, tabs, log, ok := a0, tabs0, log0, true;
    while k > a.w + job.l
      invariant Opening(job, a, hp0, hp[..], tabs, s, hn0, k, n, log) && a.hn <= MANY
      decreases k - a.w
    {
      ghost var was := hp[..];
      OpeningFacts(job, a, hp0, was, tabs, s, hn0, k, n, log, hp.Length);
      var b;
      ghost var tabs', log';
      ok, b, tabs', log' := OpenTable(job, hp, a, k, n, tabs, s, hn0, log);
      OpeningSize(job, a, hp0, was, tabs, s, hn0, k, n, log);
      if !ok {
        return;
      }
      OpenStep(job, a, b, hp0, was, hp[..], tabs, tabs', s, hn0, k, n, log, log');
      a, tabs, log := b, tabs', log';
    }
    OpenedAll(job, a, hp0, hp[..], tabs, s, hn0, k, n, log);
  }

  lemma StartNext(c: Counts, k: nat, r: nat)
    requires 1 <= k <= 15
    ensures Start(c, k, r + 1) == Start(c, k, r) + Pow2(15 - k)
  {
    hide NextCode, Shl;
    ShlAdd(NextCode(c, k) + r, 1, 15 - k);
    assert Shl(1, 15 - k) == Pow2(15 - k) by {
      ShlOne(15 - k);
    }
  }

  lemma {:induction false} ShlOne(n: nat)
    ensures Shl(1, n) == Pow2(n)
  {
    if n > 0 {
      ShlOne(n - 1);
    }
  }

  lemma ValueNext(job: Job, k: nat, n: nat)
    requires job.Valid() && 1 <= k <= job.g && 0 < n <= job.c[k]
    ensures Used(job, k, job.c[k] - (n - 1))
      == Used(job, k, job.c[k] - n) + SizeFrom(job, Start(job.c, k, job.c[k] - n), 0)
    ensures Start(job.c, k, job.c[k] - (n - 1)) == Start(job.c, k, job.c[k] - n) + Pow2(15 - k)
  {
    hide SizeFrom, Start, Off, Pos;
    StartNext(job.c, k, job.c[k] - n);
  }

  lemma PlacedLoop(job: Job, a: Regs, b: Regs, e: Regs, hp0: seq<Huft>, hp: seq<Huft>, hp': seq<Huft>, tabs: Tabs,
                   s: nat, s': nat, hn0: nat, k: nat, n: nat, log: seq<nat>, log': seq<nat>)
    requires job.Valid() && 0 < n && Opening(job, a, hp0, hp, tabs, s, hn0, k, n, log) && k <= a.w + job.l
    requires s < Pow2(15) && LenAt(job.c, s) == k && s' == Start(job.c, k, job.c[k] - (n - 1))
    requires a.hn == hn0 + Used(job, k, job.c[k] - (n - 1))
    requires b == a.(p := ValueIndex(job, k, n - 1), r := b.r, i := b.i) && BaseKept(job, b.p, b.r)
    requires Counter(b.i, s')
    requires Writes(hp0, hp', hn0, a.hn, log') && MarkedBelow(job.l, tabs, s', log')
    requires e == b.(h := e.h, w := e.w) && 0 <= e.h <= b.h
    requires Ready(job, e, hp', tabs, s', hn0) && Settled(tabs, e.u[..e.h + 1], s')
    requires NoneBegins(job.l, tabs, e.u[e.h], s')
    requires e.h < b.h ==> e.w + job.l <= b.w
    requires e.h == b.h ==> e.w == b.w
    ensures Loop(job, e, hp0, hp', tabs, s', hn0, k, n - 1, log')
  {
    hide LenAt, RankAt, Rev, Low, Off, BitsAt, Pos, Level, Pow2, Stage.Inv, Used, LeafBase, Start, SizeFrom,
      Counter, ValueIndex, Complete, Marked, MarkedBelow, NoneBegins, Writes;
    MarkedPop(job.l, tabs, e.u[e.h], s', log');
    assert View(e, hp', tabs, s', hn0).Top() == e.u[e.h];
  }

  lemma LoopFacts(job: Job, a: Regs, hp0: seq<Huft>, hp: seq<Huft>, tabs: Tabs, s: nat, hn0: nat, k: nat, n: nat,
                  log: seq<nat>)
    requires job.Valid() && Loop(job, a, hp0, hp, tabs, s, hn0, k, n, log)
    ensures 1 <= k <= job.g <= 15 && n <= job.c[k] && s == Start(job.c, k, job.c[k] - n)
  {
    hide LenAt, Rev, Low, Off, Pos, Pow2, Stage.Inv, Used, LeafBase, Start, Tracked, Ready, Settled;
  }

  lemma OpenedFacts(job: Job, a: Regs, hp0: seq<Huft>, hp: seq<Huft>, tabs: Tabs, s: nat, hn0: nat, k: nat, n: nat,
                    log: seq<nat>)
    requires job.Valid() && Opening(job, a, hp0, hp, tabs, s, hn0, k, n, log) && k <= a.w + job.l
    ensures Ready(job, a, hp, tabs, s, hn0) && At(job, a.i, s, k, n) && Current(a, tabs) && 0 <= a.w < k
    ensures a.p == ValueIndex(job, k, n) && BaseKept(job, a.p, a.r)
    ensures Tracked(job.l, hp0, View(a, hp, tabs, s, hn0), log)
    ensures s + Pow2(15 - k) <= Pow2(15) && a.i < Pow2(k)
  {
    hide LenAt, RankAt, Rev, Low, Off, BitsAt, Pos, Level, Pow2, Stage.Inv, Used, LeafBase, Start, SizeFrom, Tracked;
    NextHolds(job, View(a, hp, tabs, s, hn0), k, n, a.i);
  }

  lemma NewCounter(i: nat, s: nat)
    requires i < Pow2(15) && s <= Pow2(15)
    requires s < Pow2(15) ==> Rev(i, 15) == s
    requires s == Pow2(15) ==> i == 0
    ensures Counter(i, s)
  {
    hide Rev, Pow2;
  }

  method OneCode(job: Job, hp: array<Huft>, a0: Regs, k: nat, n: nat,
                 ghost hp0: seq<Huft>, ghost tabs0: Tabs, ghost s: nat, ghost hn0: nat, ghost log0: seq<nat>)
    returns (ok: bool, e: Regs, ghost tabs: Tabs, ghost log: seq<nat>)
    requires job.Valid() && n > 0 && Loop(job, a0, hp0, hp[..], tabs0, s, hn0, k, n, log0) && Room(job, hp.Length, hn0)
    requires a0.hn <= MANY
    modifies hp
    ensures ok ==>
      Loop(job, e, hp0, hp[..], tabs, Start(job.c, k, job.c[k] - (n - 1)), hn0, k, n - 1, log) && e.hn <= MANY
    ensures !ok ==> hn0 + Used(job, k, job.c[k] - (n - 1)) > MANY
  {
    hide LenAt, RankAt, Rev, Low, Off, BitsAt, Pos, Level, Pow2, Stage.Inv, Stage.Shape, Used, LeafBase, Start,
      Tracked, Linked, Pushed, SizeFrom, Opening, Loop, Popping, Settled, BaseKept, ValueIndex, Counter,
      Writes, MarkedBelow, NoneBegins;
    LoopFacts(job, a0, hp0, hp[..], tabs0, s, hn0, k, n, log0);
    StartOpening(job, a0, hp0, hp[..], tabs0, s, hn0, k, n, log0);
    ValueNext(job, k, n);
    var a;
    ok, a, tabs, log := OpenAll(job, hp, a0, k, n, hp0, tabs0, s, hn0, log0);
    e := a;
    if !ok {
      return;
    }
    ghost var was := hp[..];
    OpenedFacts(job, a, hp0, was, tabs, s, hn0, k, n, log);
    var b;
    ghost var log1 := log;
    b, log := PlaceCode(job, hp, a, k, n, hp0, tabs, s, hn0, log1);
    ghost var s' := Start(job.c, k, job.c[k] - (n - 1));
    var i := BackIncrement(b.i, k);
    b := b.(i := i);
    NewCounter(i, s');
    e := BackUp(job, b, hp[..], tabs, s, s', hn0);
    PlacedLoop(job, a, b, e, hp0, was, hp[..], tabs, s, s', hn0, k, n, log1, log);
  }

  lemma NextLength(job: Job, a: Regs, hp0: seq<Huft>, hp: seq<Huft>, tabs: Tabs, s: nat, hn0: nat, k: nat,
                   log: seq<nat>)
    requires job.Valid() && Loop(job, a, hp0, hp, tabs, s, hn0, k, 0, log) && k < job.g
    ensures k < 15 && Loop(job, a, hp0, hp, tabs, Start(job.c, k + 1, 0), hn0, k + 1, job.c[k + 1], log)
  {
    hide LenAt, RankAt, Rev, Low, BitsAt, Pos, Level, Pow2, Stage.Inv, LeafBase, SizeFrom, Tracked, Settled, Counter,
      Current, Rooted, BaseKept;
    SameStart(job.c, k);
    assert Off(job.c, k + 1) == Off(job.c, k) + job.c[k];
  }

  lemma SameStart(c: Counts, k: nat)
    requires 1 <= k < 15
    ensures Start(c, k + 1, 0) == Start(c, k, c[k])
  {
    hide Shl;
    ShlShl(NextCode(c, k) + c[k], 1, 15 - (k + 1));
    ShlTwice(NextCode(c, k) + c[k]);
  }

  /** The registers before the first code. */
  function FirstRegs(l: nat, hn0: nat): Regs {
    Regs(hn0, -1, -(l as int), 0, 0, 0, 0, Huft(0, 0, 0), seq(15, _ => 0), seq(16, _ => 0))
  }

  lemma NoneShorter(job: Job, k: nat)
    requires job.Valid() && 1 <= k <= job.g
    requires forall j | 1 <= j < k :: job.c[j] == 0
    ensures NextCode(job.c, k) == 0 && Off(job.c, k) == 0 && Used(job, k, 0) == 0
  {
    hide Pos, SizeFrom, Start;
    if k > 1 {
      NoneShorter(job, k - 1);
    }
  }

  lemma FirstLoop(job: Job, hp: seq<Huft>, hn0: nat, k: nat)
    requires job.Valid() && 1 <= k <= job.g && hn0 <= |hp|
    requires forall j | 1 <= j < k :: job.c[j] == 0
    ensures Loop(job, FirstRegs(job.l, hn0), hp, hp, map[], 0, hn0, k, job.c[k], [])
  {
    hide LenAt, RankAt, Rev, Low, BitsAt, Level, Pow2, LeafBase, SizeFrom, Off, NextCode, Shl, Used, Pos;
    NoneShorter(job, k);
    ShlZero(15 - k);
    RevOfZero(15);
    Pow2Pos(15);
  }

  /** Every slot of every table is right, of a wider table each of the first 2^l. */
  ghost predicate AllRight(job: Job, hp: seq<Huft>, tabs: Tabs)
    requires job.Valid()
    requires forall b | b in tabs :: tabs[b].Fits() && b + Pow2(tabs[b].j) <= |hp|
  {
    forall b, idx: nat | b in tabs && idx < Pow2(tabs[b].Part(job.l).j) && b + idx < |hp| ::
      SlotOK(job, hp, tabs, b, idx)
  }

  /** The space from hn0 to hn holds tables, the first of which serves all strings with l bits. */
  ghost predicate Built(job: Job, hp: seq<Huft>, tabs: Tabs, hn0: nat, hn: nat)
    requires job.Valid()
  {
    && hn <= |hp| && Tables(job, tabs, hn0, hn)
    && hn0 in tabs && tabs[hn0] == Tab(0, job.l, 0)
    && AllRight(job, hp, tabs)
  }

  lemma LastLoop(job: Job, a: Regs, hp0: seq<Huft>, hp: seq<Huft>, tabs: Tabs, s: nat, hn0: nat, log: seq<nat>)
    requires job.Valid() && Loop(job, a, hp0, hp, tabs, s, hn0, job.g, 0, log)
    ensures Built(job, hp, tabs, hn0, a.hn) && a.hn == hn0 + TotalUsed(job)
    ensures WrittenOnce(job, hp0, hp, tabs, hn0, a.hn, log)
  {
    hide LenAt, RankAt, Rev, Low, BitsAt, Level, LeafBase, SizeFrom, Off, Used, Pow2, SlotOK, Tracked, WrittenOnce,
      Stack, Counter, Settled;
    CompletePos(job.c, job.g, job.g);
    assert s == Pow2(15);
    var g := View(a, hp, tabs, s, hn0);
    forall b, idx: nat | b in tabs && idx < Pow2(tabs[b].Part(job.l).j) && b + idx < |hp|
      ensures SlotOK(job, hp, tabs, b, idx)
    {
      TabFacts(job, tabs[b]);
      var t := tabs[b].Part(job.l);
      Pow2Pos(15 - t.w - t.j);
      SlotRange(t, idx);
      assert Due(job.l, tabs, g.Top(), s, b, idx);
    }
    LastOnce(job, hp0, g, log);
  }

  lemma LastOnce(job: Job, hp0: seq<Huft>, g: Stage, log: seq<nat>)
    requires job.Valid() && Tables(job, g.tabs, g.hn0, g.hn) && Tracked(job.l, hp0, g, log) && g.s == Pow2(15)
    ensures WrittenOnce(job, hp0, g.hp, g.tabs, g.hn0, g.hn, log)
  {
    hide LenAt, Low, BitsAt, Level, Off, Pow2, Pos, Marked, Writes, Space, Complete, TabOK, Reachable;
    forall b, idx: nat | b in g.tabs && idx < Pow2(g.tabs[b].j)
      ensures Reachable(job.l, log, b, idx)
    {
      LastMark(job, g.tabs, g.Top(), log, b, idx);
    }
  }

  /** In the end exactly the first 2^l slots of a table are in the log. */
  lemma LastMark(job: Job, tabs: Tabs, top: int, log: seq<nat>, b: nat, idx: nat)
    requires job.Valid() && Marked(job.l, tabs, top, Pow2(15), log)
    requires b in tabs && TabOK(job, tabs[b]) && idx < Pow2(tabs[b].j)
    ensures Reachable(job.l, log, b, idx)
  {
    hide LenAt, BitsAt, Low, Level, Off, Pos, Pow2, Rev, Marked;
    TabFacts(job, tabs[b]);
    var t := tabs[b].Part(job.l);
    MarkedAt(job.l, tabs, top, Pow2(15), log, b, idx);
    Pow2Pos(15 - t.w - t.j);
    SlotRange(t, idx);
    Pow2Mono(if job.l < tabs[b].j then job.l else tabs[b].j, if job.l < tabs[b].j then tabs[b].j else job.l);
  }

  lemma OnceUntouched(job: Job, hp0: seq<Huft>, hp: seq<Huft>, tabs: Tabs, hn0: nat, hn: nat, log: seq<nat>)
    requires WrittenOnce(job, hp0, hp, tabs, hn0, hn, log)
    ensures Untouched(job, hp0, hp, tabs, hn0, hn)
  {
    hide Pow2, NoneTwice, Reachable, Kept;
    forall b, idx: nat | b in tabs && Pow2(job.l) <= idx < Pow2(tabs[b].j)
      ensures Kept(hp0, hp, b, idx)
    {
      OnceKept(job, hp0, hp, tabs, hn0, hn, log, b, idx);
    }
  }

  lemma OnceKept(job: Job, hp0: seq<Huft>, hp: seq<Huft>, tabs: Tabs, hn0: nat, hn: nat, log: seq<nat>, b: nat,
                 idx: nat)
    requires WrittenOnce(job, hp0, hp, tabs, hn0, hn, log) && b in tabs && Pow2(job.l) <= idx < Pow2(tabs[b].j)
    ensures Kept(hp0, hp, b, idx)
  {
    hide Pow2, NoneTwice;
    assert Reachable(job.l, log, b, idx);
  }

  /** Goes through all codes in order, making tables and entries. */
  method GenerateCodes(job: Job, hp: array<Huft>, k0: nat, hn0: nat)
    returns (ok: bool, hn: nat, ghost tabs: Tabs, ghost log: seq<nat>)
    requires job.Valid() && 1 <= k0 <= job.g && forall j | 1 <= j < k0 :: job.c[j] == 0
    requires hn0 <= MANY && hn0 <= hp.Length && Room(job, hp.Length, hn0)
    modifies hp
    ensures ok <==> hn0 + TotalUsed(job) <= MANY
    ensures ok ==> Built(job, hp[..], tabs, hn0, hn) && hn == hn0 + TotalUsed(job)
    ensures ok ==> WrittenOnce(job, old(hp[..]), hp[..], tabs, hn0, hn, log)
  {
    hide LenAt, RankAt, Rev, Low, Off, BitsAt, Pos, Level, Pow2, Used, Start, SizeFrom, Loop, WrittenOnce, Built;
    var k := k0;
    var a := FirstRegs(job.l, hn0);
    ghost var hp0, s := hp[..], 0;
    tabs, log := map[], [];
    FirstLoop(job, hp0, hn0, k0);
    var n := job.c[k];
    while true
      invariant 1 <= k <= job.g && n <= job.c[k]
      invariant Loop(job, a, hp0, hp[..], tabs, s, hn0, k, n, log) && a.hn <= MANY
      decreases job.g - k
    {
      while n > 0
        invariant n <= job.c[k]
        invariant Loop(job, a, hp0, hp[..], tabs, s, hn0, k, n, log) && a.hn <= MANY
      {
        ok, a, tabs, log := OneCode(job, hp, a, k, n, hp0, tabs, s, hn0, log);
        n := n - 1;
        if !ok {
          UsedMono(job, k, job.c[k] - n, job.g, job.c[job.g]);
          return false, a.hn, tabs, log;
        }
        s := Start(job.c, k, job.c[k] - n);
      }
      if k == job.g {
        break;
      }
      NextLength(job, a, hp0, hp[..], tabs, s, hn0, k, log);
      k := k + 1;
      n := job.c[k];
      s := Start(job.c, k, 0);
    }
    LastLoop(job, a, hp0, hp[..], tabs, s, hn0, log);
    ok, hn := true, a.hn;
  }
}
