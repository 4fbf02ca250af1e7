/** Which entries of the table space have been written: every one that a right table needs, and none of them twice. */
module HuftLog {
  import opened Arith
  import opened CanonicalCode
  import opened HuftSpec
  import opened HuftInvariant
  import opened HuftSteps

  /** The log lists entries of the space from hn0 to hn, none of them twice; all others are as they were. */
  ghost predicate Writes(hp0: seq<Huft>, hp: seq<Huft>, hn0: nat, hn: nat, log: seq<nat>) {
    && |hp| == |hp0| && NoneTwice(log)
    && (forall a | a in log :: hn0 <= a < hn)
    && (forall a | 0 <= a < |hp| && a !in log :: hp[a] == hp0[a])
  }

  /** The log has exactly the slots that are due. */
  ghost predicate Marked(l: nat, tabs: Tabs, top: int, s: nat, log: seq<nat>) {
    forall b, idx: nat | b in tabs && tabs[b].Fits() && idx < Pow2(tabs[b].j) ::
      b + idx in log <==> Due(l, tabs, top, s, b, idx)
  }

  /** Is the slot one of the first 2^l of its table, and does it begin below s? */
  ghost predicate Below(l: nat, tabs: Tabs, s: nat, b: nat, idx: nat)
    requires b in tabs && tabs[b].Fits()
  {
    idx < Pow2(tabs[b].Part(l).j) && tabs[b].Part(l).Slot(idx) < s
  }

  /** The log has exactly the slots below s. */
  ghost predicate MarkedBelow(l: nat, tabs: Tabs, s: nat, log: seq<nat>) {
    forall b, idx: nat | b in tabs && tabs[b].Fits() && idx < Pow2(tabs[b].j) ::
      b + idx in log <==> Below(l, tabs, s, b, idx)
  }

  /** The log is right at this stage of the builder, which began with hp0. */
  ghost predicate Tracked(l: nat, hp0: seq<Huft>, g: Stage, log: seq<nat>) {
    Writes(hp0, g.hp, g.hn0, g.hn, log) && Marked(l, g.tabs, g.Top(), g.s, log)
  }

  lemma MarkedAt(l: nat, tabs: Tabs, top: int, s: nat, log: seq<nat>, b: nat, idx: nat)
    requires Marked(l, tabs, top, s, log) && b in tabs && tabs[b].Fits() && idx < Pow2(tabs[b].j)
    ensures b + idx in log <==> Due(l, tabs, top, s, b, idx)
  {
    hide Pow2, Due;
  }

  // ---- making a table ----

  /** The log after the link to a new table, if there is a table around it. */
  function LinkLog(g: Stage, w: nat, l: nat, i: nat, log: seq<nat>): seq<nat> {
    if |g.st| == 0 || w < l then log else log + [g.st[|g.st| - 1] + Shr(i, w - l)]
  }

  lemma MarkedPush(job: Job, hp0: seq<Huft>, g: Stage, g': Stage, w: nat, i: nat, log: seq<nat>)
    requires job.Valid() && g.Shape(job) && Pushed(job, g, g', w, i) && Linked(job, g, g', w, i)
    requires g.s < Pow2(15) && w < LenAt(job.c, g.s) && i < Pow2(15) && Rev(i, 15) == g.s
    requires Tracked(job.l, hp0, g, log)
    ensures Tracked(job.l, hp0, g', LinkLog(g, w, job.l, i, log))
  {
    hide LenAt, RankAt, Rev, Low, Off, BitsAt, Pos, Level, Pow2, Complete, Shr, Due, Marked, Stage.Shape, NoneTwice,
      Tables;
    PushTables(job, g, g', w, i);
    PushWrites(job, hp0, g, g', w, i, log);
    forall b, idx: nat | b in g'.tabs && g'.tabs[b].Fits() && idx < Pow2(g'.tabs[b].j)
      ensures b + idx in LinkLog(g, w, job.l, i, log) <==> Due(job.l, g'.tabs, g'.Top(), g'.s, b, idx)
    {
      PushMark(job, hp0, g, g', w, i, log, b, idx);
    }
    MarkedAll(job.l, g'.tabs, g'.Top(), g'.s, LinkLog(g, w, job.l, i, log));
  }

  lemma MarkedAll(l: nat, tabs: Tabs, top: int, s: nat, log: seq<nat>)
    requires forall b, idx: nat | b in tabs && tabs[b].Fits() && idx < Pow2(tabs[b].j) ::
      b + idx in log <==> Due(l, tabs, top, s, b, idx)
    ensures Marked(l, tabs, top, s, log)
  {
    hide Pow2, Due;
  }

  /** The slot that will hold the link has not been written. */
  lemma LinkFresh(job: Job, g: Stage, w: nat, i: nat, log: seq<nat>)
    requires job.Valid() && g.Shape(job) && |g.st| > 0 && g.s < Pow2(15)
    requires g.st[|g.st| - 1] in g.tabs && w == g.tabs[g.st[|g.st| - 1]].w + job.l < LenAt(job.c, g.s)
    requires i < Pow2(15) && Rev(i, 15) == g.s
    requires Marked(job.l, g.tabs, g.Top(), g.s, log)
    ensures var top := g.st[|g.st| - 1]; var f := Shr(i, w - job.l);
      top + f !in log && f < Pow2(g.tabs[top].j) && top + f < g.hn && g.hn0 <= top
  {
    hide LenAt, RankAt, Rev, Low, Off, BitsAt, Pos, Level, Pow2, Complete, Shr, Shl, Marked, Stage.Shape;
    var top := g.st[|g.st| - 1];
    var f := Shr(i, w - job.l);
    LinkSlot(job, g, i);
    SomeOpen(job, g, top);
    MarkedAt(job.l, g.tabs, g.Top(), g.s, log, top, f);
  }

  lemma PushWrites(job: Job, hp0: seq<Huft>, g: Stage, g': Stage, w: nat, i: nat, log: seq<nat>)
    requires job.Valid() && g.Shape(job) && Pushed(job, g, g', w, i) && Linked(job, g, g', w, i)
    requires g.s < Pow2(15) && w < LenAt(job.c, g.s) && i < Pow2(15) && Rev(i, 15) == g.s
    requires Tracked(job.l, hp0, g, log)
    ensures Writes(hp0, g'.hp, g'.hn0, g'.hn, LinkLog(g, w, job.l, i, log))
  {
    hide LenAt, RankAt, Rev, Low, Off, BitsAt, Pos, Level, Pow2, Complete, Shr, Due, Marked, Stage.Shape, NoneTwice;
    if |g.st| > 0 {
      LinkFresh(job, g, w, i, log);
      OnceMore(log, g.st[|g.st| - 1] + Shr(i, w - job.l));
    }
  }

  lemma PushMark(job: Job, hp0: seq<Huft>, g: Stage, g': Stage, w: nat, i: nat, log: seq<nat>, b: nat, idx: nat)
    requires job.Valid() && g.Shape(job) && Pushed(job, g, g', w, i) && Linked(job, g, g', w, i)
    requires g.s < Pow2(15) && w < LenAt(job.c, g.s) && i < Pow2(15) && Rev(i, 15) == g.s
    requires Tracked(job.l, hp0, g, log) && g.hn !in g.tabs
    requires b in g'.tabs && g'.tabs[b].Fits() && idx < Pow2(g'.tabs[b].j)
    ensures b + idx in LinkLog(g, w, job.l, i, log) <==> Due(job.l, g'.tabs, g'.Top(), g'.s, b, idx)
  {
    hide LenAt, RankAt, Rev, Low, Off, BitsAt, Pos, Level, Pow2, Complete, Shr, Shl, Due, Marked, Stage.Shape,
      NoneTwice, Linked;
    if |g.st| > 0 {
      LinkFresh(job, g, w, i, log);
      if b == g.hn {
        NotDue(job.l, g'.tabs, b, g'.s, idx);
      } else {
        var top := g.st[|g.st| - 1];
        SomeOpen(job, g, b);
        SpaceDisjoint(g.tabs, g.hn0, g.hn, b, idx, top, Shr(i, w - job.l));
        MarkedAt(job.l, g.tabs, g.Top(), g.s, log, b, idx);
        DueAfter(job, g, i, g'.tabs, g.hn, b, idx);
      }
    } else if b == g.hn {
      NotDue(job.l, g'.tabs, b, g'.s, idx);
    } else {
      SomeOpen(job, g, b);
    }
  }

  /** Once the new table is innermost, the slot of the link is due as well. */
  lemma DueAfter(job: Job, g: Stage, i: nat, tabs': Tabs, top': nat, b: nat, idx: nat)
    requires job.Valid() && g.Shape(job) && |g.st| > 0 && g.s < Pow2(15) && g.st[|g.st| - 1] in g.tabs
    requires g.tabs[g.st[|g.st| - 1]].w + job.l < LenAt(job.c, g.s) && i < Pow2(15) && Rev(i, 15) == g.s
    requires b in g.tabs && b in tabs' && tabs'[b] == g.tabs[b] && g.tabs[b].Fits() && b != top'
    ensures Due(job.l, tabs', top', g.s, b, idx) <==>
            (Due(job.l, g.tabs, g.Top(), g.s, b, idx) || (b == g.st[|g.st| - 1] && idx == Shr(i, g.tabs[b].w)))
  {
    hide LenAt, RankAt, Rev, Low, Off, BitsAt, Pos, Level, Pow2, Complete, Shr, Shl, Stage.Shape;
    LinkSlot(job, g, i);
    if b == g.st[|g.st| - 1] && idx < Pow2(g.tabs[b].Part(job.l).j) && g.tabs[b].Part(job.l).Slot(idx) == g.s {
      SlotInjective(g.tabs[b].Part(job.l), idx, Shr(i, g.tabs[b].w));
    }
  }

  // ---- placing a code ----

  /** The slots of the code that is placed next have not been written. */
  lemma FillFresh(job: Job, g: Stage, k: nat, r: nat, i: nat, log: seq<nat>)
    requires job.Valid() && g.Shape(job) && Next(job, g, k, r, i) && Marked(job.l, g.tabs, g.Top(), g.s, log)
    ensures var q := g.st[|g.st| - 1]; var t := g.tabs[q];
      k >= t.w && Unwritten(log, q, Pow2(t.j), k - t.w, Shr(i, t.w))
  {
    hide LenAt, RankAt, Low, Shl, Rev, Shr, BitsAt, Off, Pos, Pow2, Complete, NextCode, Marked, Stage.Shape, Due;
    var q := g.st[|g.st| - 1];
    var t := g.tabs[q];
    NextFacts(job, g, k, r, i);
    NextNarrow(job, g, k, r, i);
    SomeOpen(job, g, q);
    forall a | a in log && q <= a < q + Pow2(t.j)
      ensures Low(a - q, k - t.w) != Shr(i, t.w)
    {
      if Low(a - q, k - t.w) == Shr(i, t.w) {
        CodeSlots(t, i, g.x[|g.st| - 1], k, a - q);
        MarkedAt(job.l, g.tabs, g.Top(), g.s, log, q, a - q);
        NotYet(job.l, g.tabs, q, g.s, a - q);
      }
    }
  }

  lemma NotYet(l: nat, tabs: Tabs, q: nat, s: nat, idx: nat)
    requires q in tabs && tabs[q].Fits() && tabs[q].j <= l && s <= tabs[q].Slot(idx)
    ensures !Due(l, tabs, q, s, q, idx)
  {
    hide Pow2, Rev, Shl;
  }

  lemma MarkedFill(job: Job, hp0: seq<Huft>, g: Stage, hp': seq<Huft>, k: nat, r: nat, i: nat, e: Huft, log: seq<nat>,
                   log': seq<nat>)
    requires job.Valid() && g.Shape(job) && Next(job, g, k, r, i)
    requires Tracked(job.l, hp0, g, log)
    requires var q := g.st[|g.st| - 1]; var t := g.tabs[q];
      && k >= t.w && Filled(g.hp, hp', q, t.j, k - t.w, Shr(i, t.w), e)
      && LoggedTo(log, log', q, k - t.w, Shr(i, t.w), Pow2(t.j))
    ensures Writes(hp0, hp', g.hn0, g.hn, log') && MarkedBelow(job.l, g.tabs, g.s + Pow2(15 - k), log')
  {
    hide LenAt, RankAt, Low, Shl, Rev, Shr, BitsAt, Off, Pos, Pow2, Complete, NextCode, Marked, Stage.Shape, Due, Below,
      LoggedTo, Filled, Writes;
    var q := g.st[|g.st| - 1];
    SomeOpen(job, g, q);
    NextFacts(job, g, k, r, i);
    FillWrites(hp0, g, hp', q, g.tabs[q].j, k - g.tabs[q].w, Shr(i, g.tabs[q].w), e, log, log');
    ghost var s' := g.s + Pow2(15 - k);
    forall b, idx: nat | b in g.tabs && g.tabs[b].Fits() && idx < Pow2(g.tabs[b].j)
      ensures b + idx in log' <==> Below(job.l, g.tabs, s', b, idx)
    {
      FillMark(job, g, k, r, i, log, log', b, idx);
    }
  }

  lemma FillWrites(hp0: seq<Huft>, g: Stage, hp': seq<Huft>, q: nat, j: nat, m: nat, f: nat, e: Huft, log: seq<nat>,
                   log': seq<nat>)
    requires Writes(hp0, g.hp, g.hn0, g.hn, log) && Filled(g.hp, hp', q, j, m, f, e)
    requires LoggedTo(log, log', q, m, f, Pow2(j))
    requires g.hn0 <= q && q + Pow2(j) <= g.hn
    ensures Writes(hp0, hp', g.hn0, g.hn, log')
  {
    hide Low, Pow2, NoneTwice;
    forall a | 0 <= a < |hp'| && a !in log'
      ensures hp'[a] == hp0[a]
    {
      if q <= a < q + Pow2(j) {
        assert hp'[q + (a - q)] == g.hp[q + (a - q)];
      }
    }
  }

  lemma FillMark(job: Job, g: Stage, k: nat, r: nat, i: nat, log: seq<nat>, log': seq<nat>, b: nat, idx: nat)
    requires job.Valid() && g.Shape(job) && Next(job, g, k, r, i) && Marked(job.l, g.tabs, g.Top(), g.s, log)
    requires var q := g.st[|g.st| - 1]; var t := g.tabs[q];
      k >= t.w && LoggedTo(log, log', q, k - t.w, Shr(i, t.w), Pow2(t.j))
    requires b in g.tabs && g.tabs[b].Fits() && idx < Pow2(g.tabs[b].j)
    ensures b + idx in log' <==> Below(job.l, g.tabs, g.s + Pow2(15 - k), b, idx)
  {
    hide LenAt, RankAt, Low, Shl, Rev, Shr, BitsAt, Off, Pos, Pow2, Complete, NextCode, Marked, Stage.Shape, LoggedTo;
    var q := g.st[|g.st| - 1];
    var t := g.tabs[q];
    NextFacts(job, g, k, r, i);
    SomeOpen(job, g, b);
    LoggedAt(log, log', q, k - t.w, Shr(i, t.w), Pow2(t.j), b + idx);
    MarkedAt(job.l, g.tabs, g.Top(), g.s, log, b, idx);
    Pow2Pos(15 - k);
    if b == q {
      NextNarrow(job, g, k, r, i);
      CodeSlots(t, i, g.x[|g.st| - 1], k, idx);
    } else {
      var u := g.tabs[b].Part(job.l);
      if idx < Pow2(u.j) && g.s <= u.Slot(idx) < g.s + Pow2(15 - k) {
        OuterSlot(job, g, k, r, i, b, idx);
      }
    }
  }

  // ---- backing up ----

  /** No slot of an outer table begins at s. */
  ghost predicate NoneBegins(l: nat, tabs: Tabs, top: int, s: nat) {
    forall b, idx: nat | b in tabs && tabs[b].Fits() && b != top && idx < Pow2(tabs[b].Part(l).j) ::
      tabs[b].Part(l).Slot(idx) != s
  }

  lemma PopBegins(job: Job, g: Stage, s0: nat)
    requires job.Valid() && Popping(job, g, s0)
    requires g.s < Pow2(15) ==> InRange(g.tabs[g.st[|g.st| - 1]], g.s)
    ensures NoneBegins(job.l, g.tabs, g.Top(), g.s)
  {
    hide LenAt, Low, Rev, BitsAt, Off, Pos, Pow2, SlotOK, Complete, Saved, Shl, Nested, DoneBelow, TabOK, Space;
    forall b, idx: nat | b in g.tabs && g.tabs[b].Fits() && b != g.Top() && idx < Pow2(g.tabs[b].Part(job.l).j)
      ensures g.tabs[b].Part(job.l).Slot(idx) != g.s
    {
      var t := g.tabs[b].Part(job.l);
      Pow2Pos(15 - t.w - t.j);
      SlotRange(t, idx);
      TabFacts(job, g.tabs[b]);
      if t.Slot(idx) == g.s {
        assert b in g.st;
        var d :| 0 <= d < |g.st| && g.st[d] == b;
        OuterDone(job, g, s0, d, idx);
      }
    }
  }

  lemma MarkedPop(l: nat, tabs: Tabs, top: int, s: nat, log: seq<nat>)
    requires MarkedBelow(l, tabs, s, log) && NoneBegins(l, tabs, top, s)
    ensures Marked(l, tabs, top, s, log)
  {
    hide Pow2, Rev, Shl;
    forall b, idx: nat | b in tabs && tabs[b].Fits() && idx < Pow2(tabs[b].j)
      ensures b + idx in log <==> Due(l, tabs, top, s, b, idx)
    {
      assert b + idx in log <==> Below(l, tabs, s, b, idx);
    }
  }
}
