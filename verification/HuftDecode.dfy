/** Walking finished tables: every bit string leads to the entry of the code that owns it. */
module HuftDecode {
  import opened Arith
  import opened CanonicalCode
  import opened HuftSpec
  import opened HuftInvariant
  import opened HuftSteps
  import opened HuftLog
  import opened TableBuilder
  import opened InfTrees

  /** Does the entry lead to another table? */
  predicate IsLink(e: Huft) { 0 < e.exop < 16 }

  /** The entry reached and the bits dropped on the way, itself included. */
  datatype Found = Found(e: Huft, n: nat) | Stuck

  /** What inflate_codes does with a table at b of j bits: p is the bit buffer, left the bits not yet dropped of 15. */
  function Walk(hp: seq<Huft>, b: nat, j: nat, p: nat, left: nat): Found
    decreases left
  {
    var a := b + Low(p, j);
    if a >= |hp| || hp[a].bits == 0 || hp[a].bits > left then Stuck
    else if IsLink(hp[a]) then
      match Walk(hp, a + hp[a].base, hp[a].exop, Shr(p, hp[a].bits), left - hp[a].bits)
      case Found(e, n) => Found(e, n + hp[a].bits)
      case Stuck => Stuck
    else Found(hp[a], hp[a].bits)
  }

  /** The slot picked by the next j bits serves the string. */
  lemma SlotOf(t: Tab, p: nat, x: nat)
    requires t.Fits() && p < Pow2(15) && Rev(p, 15) == x && InRange(t, x) && Low(t.lo, 15 - t.w) == 0
    ensures Low(Shr(p, t.w), t.j) < Pow2(t.j)
    ensures t.Slot(Low(Shr(p, t.w), t.j)) <= x < t.Slot(Low(Shr(p, t.w), t.j)) + Pow2(15 - t.w - t.j)
  {
    hide Low, Shr, Shl, Rev, Pow2;
    var y := Shr(p, t.w);
    RevSplit(p, t.w, 15 - t.w);
    SplitAt(t.lo, 15 - t.w);
    RevLess(y, 15 - t.w);
    SplitUnique(x, 15 - t.w, Rev(y, 15 - t.w), Rev(p, t.w));
    SplitUnique(x, 15 - t.w, x - t.lo, Shr(t.lo, 15 - t.w));
    RevSplit(y, t.j, 15 - t.w - t.j);
    RevLow(y, t.j);
    LowBound(y, t.j);
    RevLess(Shr(y, t.j), 15 - t.w - t.j);
  }

  /** All strings of a slot with a leaf belong to the leaf's code. */
  lemma SameOwner(job: Job, t: Tab, y: nat, x: nat)
    requires job.Valid() && t.Fits() && Low(y, 15 - t.w - t.j) == 0 && LenAt(job.c, y) <= t.w + t.j
    requires y <= x < y + Pow2(15 - t.w - t.j) && y < Pow2(15)
    ensures LenAt(job.c, x) == LenAt(job.c, y) && RankAt(job.c, x) == RankAt(job.c, y)
  {
    hide Low, LenAt, RankAt, NextCode, Shl, Pos, Off, Pow2;
    var k := LenAt(job.c, y);
    OwnerOf(job.c, job.g, y);
    var s := Shl(NextCode(job.c, k) + RankAt(job.c, y), 15 - k);
    LowOfMultiple(NextCode(job.c, k) + RankAt(job.c, y), 15 - k, 15 - k);
    LowPow2(15 - k, 15 - k);
    LowZeroAdd(s, Pow2(15 - k), 15 - k);
    LowZeroWeaken(s + Pow2(15 - k), 15 - k, 15 - t.w - t.j);
    AlignedGap(y, s + Pow2(15 - k), 15 - t.w - t.j);
    OwnedBy(job.c, k, RankAt(job.c, y), x);
  }

  /** What the entry for the code that owns x must be. */
  ghost predicate EntryFor(job: Job, x: nat, e: Huft)
    requires job.Valid()
  {
    var i := IndexAt(job.c, x);
    && i >= 0 && e.exop == LeafExop(job, i)
    && (i < |job.v| ==> e.base == LeafBase(job, i))
    && (i >= |job.v| && job.g <= job.l ==> e.base == LeafBase(job, |job.v| - 1))
  }

  lemma LeafNotLink(job: Job, i: nat)
    requires job.Valid()
    ensures LeafExop(job, i) == 0 || LeafExop(job, i) >= 16
  {
    hide Complete, Off, Pos;
  }

  ghost predicate Sound(job: Job, hp: seq<Huft>, tabs: Tabs, hn0: nat, hn: nat)
    requires job.Valid()
  {
    Built(job, hp, tabs, hn0, hn) && Narrow(job, tabs)
  }

  /** The slot that serves x in the table at b. */
  lemma SlotFor(job: Job, hp: seq<Huft>, tabs: Tabs, hn0: nat, hn: nat, b: nat, p: nat, x: nat)
    requires job.Valid() && Built(job, hp, tabs, hn0, hn) && b in tabs
    requires p < Pow2(15) && Rev(p, 15) == x && InRange(tabs[b], x)
    ensures var t := tabs[b].Part(job.l); var idx := Low(Shr(p, t.w), t.j);
      && tabs[b].Fits() && t.Fits() && idx < Pow2(t.j) && b + idx < |hp| && SlotOK(job, hp, tabs, b, idx)
      && t.Slot(idx) <= x < t.Slot(idx) + Pow2(15 - t.w - t.j)
      && Low(t.Slot(idx), 15 - t.w - t.j) == 0 && t.Slot(idx) < Pow2(15)
  {
    hide Low, Shr, Shl, Rev, Pow2, SlotOK, TabOK, Level, Complete;
    var t := tabs[b].Part(job.l);
    TabFacts(job, tabs[b]);
    Pow2Mono(t.j, tabs[b].j);
    SlotOf(t, p, x);
    SlotAligned(t, Low(Shr(p, t.w), t.j));
  }

  lemma {:induction false} WalkRight(job: Job, hp: seq<Huft>, tabs: Tabs, hn0: nat, hn: nat, b: nat, p: nat, x: nat)
    requires job.Valid() && Sound(job, hp, tabs, hn0, hn) && b in tabs
    requires p < Pow2(15) && Rev(p, 15) == x && InRange(tabs[b], x)
    ensures tabs[b].w < LenAt(job.c, x) <= 15
    ensures var r := Walk(hp, b, tabs[b].j, Shr(p, tabs[b].w), 15 - tabs[b].w);
      r.Found? && r.n == LenAt(job.c, x) - tabs[b].w && EntryFor(job, x, r.e)
    decreases 15 - tabs[b].w
  {
    hide Low, Shr, Shl, Rev, Pow2, TabOK, Level, LenAt, RankAt, LeafExop, LeafBase, BitsAt, AllRight, Space, Narrow,
      Off, Pos;
    var t := tabs[b];
    NarrowAt(job, tabs, b);
    SlotFor(job, hp, tabs, hn0, hn, b, p, x);
    var idx := Low(Shr(p, t.w), t.j);
    var y := t.Slot(idx);
    if LeafOK(job, t, y, hp[b + idx]) {
      SameOwner(job, t, y, x);
      LeafNotLink(job, IndexAt(job.c, y));
    } else {
      var a := b + idx + hp[b + idx].base;
      AllFit(job, tabs, hn0, hn);
      WalkRight(job, hp, tabs, hn0, hn, a, p, x);
      ShrShr(p, t.w, job.l);
    }
  }

  lemma AllFit(job: Job, tabs: Tabs, hn0: nat, hn: nat)
    requires job.Valid() && Tables(job, tabs, hn0, hn)
    ensures forall c | c in tabs :: tabs[c].Fits() && tabs[c].j < 16
  {
    hide Low, LenAt, BitsAt, TabOK, Level, Off, Pos, Pow2;
    forall c | c in tabs
      ensures tabs[c].Fits() && tabs[c].j < 16
    {
      TabFacts(job, tabs[c]);
    }
  }

  // ---- when the tables are right ----

  /** A table wider than l bits means that some prefix has no code of at most l more bits. */
  lemma WideIsJump(job: Job, hp: seq<Huft>, tabs: Tabs, hn0: nat, hn: nat)
    requires job.Valid() && Built(job, hp, tabs, hn0, hn) && NoJump(job)
    ensures Narrow(job, tabs)
  {
    hide Low, LenAt, Complete, BitsAt, AllRight, Space, Level, Pow2, Off, SlotOK;
    forall b | b in tabs
      ensures tabs[b].j <= job.l
    {
      WideTable(job, tabs[b]);
    }
  }

  lemma WideTable(job: Job, t: Tab)
    requires NoJump(job) && TabOK(job, t)
    ensures t.j <= job.l
  {
    hide Low, LenAt, BitsAt, Pow2, Off, Pos, Level;
    var k := LenAt(job.c, t.lo);
    if t.j > job.l {
      if k <= t.w + job.l {
        SmallBits(job, t.w, t.lo);
      }
      TableCode(job, t);
      LenAbove(job.c, t.lo, t.w + job.l);
    }
  }

  lemma TableCode(job: Job, t: Tab)
    requires job.Valid() && TabOK(job, t)
    ensures LenAt(job.c, t.lo) <= job.g
  {
    hide Low, LenAt, BitsAt, Off, Pos, Level;
    OwnerPos(job.c, job.g, t.lo);
  }

  lemma LenAbove(c: Counts, x: nat, m: nat)
    requires 1 <= m < LenAt(c, x)
    ensures Pos(c, m) <= x
  {
    hide Pos;
    PosMono(c, m, LenAt(c, x) - 1);
  }

  /** Following right tables towards x leads to a table of every level below the length of its code. */
  lemma {:induction false} TableOnPath(job: Job, hp: seq<Huft>, tabs: Tabs, hn0: nat, hn: nat, w: nat, x: nat)
    returns (b: nat)
    requires job.Valid() && Sound(job, hp, tabs, hn0, hn)
    requires Level(job.l, w) && x < Pow2(15) && w < LenAt(job.c, x)
    ensures b in tabs && tabs[b].w == w && InRange(tabs[b], x)
    decreases w
  {
    hide Low, Shr, Shl, Rev, Pow2, TabOK, LenAt, RankAt, LeafExop, LeafBase, BitsAt, Off, AllRight, Space, Narrow;
    if w == 0 {
      b := hn0;
    } else {
      var a := TableOnPath(job, hp, tabs, hn0, hn, w - job.l, x);
      RevRev(x, 15);
      RevLess(x, 15);
      var p := Rev(x, 15);
      NarrowAt(job, tabs, a);
      SlotFor(job, hp, tabs, hn0, hn, a, p, x);
      var t := tabs[a];
      var idx := Low(Shr(p, t.w), t.j);
      if LeafOK(job, t, t.Slot(idx), hp[a + idx]) {
        SameOwner(job, t, t.Slot(idx), x);
        assert false;
      }
      AllFit(job, tabs, hn0, hn);
      b := a + idx + hp[a + idx].base;
    }
  }

  lemma NarrowAt(job: Job, tabs: Tabs, b: nat)
    requires Narrow(job, tabs) && b in tabs
    ensures tabs[b].j <= job.l
  {
  }

  lemma NarrowIsNoJump(job: Job, hp: seq<Huft>, tabs: Tabs, hn0: nat, hn: nat)
    requires job.Valid() && Sound(job, hp, tabs, hn0, hn)
    ensures NoJump(job)
  {
    hide Low, LenAt, BitsAt, AllRight, Space, Pow2, Off, SlotOK, Pos, Level, Narrow;
    forall w: nat | Level(job.l, w) && w + job.l < job.g
      ensures Pos(job.c, w + job.l) + Pow2(15 - w) > Pow2(15)
    {
      NoJumpAt(job, hp, tabs, hn0, hn, w);
    }
  }

  lemma NoJumpAt(job: Job, hp: seq<Huft>, tabs: Tabs, hn0: nat, hn: nat, w: nat)
    requires job.Valid() && Sound(job, hp, tabs, hn0, hn) && Level(job.l, w) && w + job.l < job.g
    ensures Pos(job.c, w + job.l) + Pow2(15 - w) > Pow2(15)
  {
    hide Low, LenAt, BitsAt, AllRight, Space, Pow2, Off, SlotOK, Pos, Level, Narrow, TabOK, TableBits;
    if Pos(job.c, w + job.l) + Pow2(15 - w) <= Pow2(15) {
      var x := LastPrefix(w);
      if LenAt(job.c, x) <= w + job.l {
        ShortOwner(job.c, x, w + job.l);
      }
      var b := TableOnPath(job, hp, tabs, hn0, hn, w, x);
      TabFacts(job, tabs[b]);
      AlignedEqual(tabs[b].lo, x, 15 - w);
      WideHere(job, tabs[b]);
      NarrowAt(job, tabs, b);
      assert false;
    }
  }

  lemma LastPrefix(w: nat) returns (x: nat)
    requires w <= 15
    ensures x + Pow2(15 - w) == Pow2(15) && Low(x, 15 - w) == 0
  {
    hide Low, Shl;
    Pow2Pos(w);
    x := Shl(Pow2(w) - 1, 15 - w);
    ShlAdd(Pow2(w) - 1, 1, 15 - w);
    ShlOne(15 - w);
    ShlPow2(w, 15 - w);
    LowOfMultiple(Pow2(w) - 1, 15 - w, 15 - w);
  }

  lemma ShortOwner(c: Counts, x: nat, m: nat)
    requires 1 <= m < 15 && LenAt(c, x) <= m
    ensures x < Pos(c, m)
  {
    hide Pos;
    PosMono(c, LenAt(c, x), m);
  }

  lemma WideHere(job: Job, t: Tab)
    requires job.Valid() && TabOK(job, t) && LenAt(job.c, t.lo) > t.w + job.l
    ensures t.j > job.l
  {
    hide Low, LenAt, Pow2, Off, Pos, Level, Grow, RankAt;
  }

  /** Some entry from hn to hn' was not written. */
  ghost predicate LeavesGap(hp0: seq<Huft>, hp: seq<Huft>, hn: nat, hn': nat) {
    exists a :: hn <= a < hn' && a < |hp0| && a < |hp| && hp[a] == hp0[a]
  }

  /** No table is wider than l bits exactly when no prefix jumps. */
  lemma NarrowIffNoJump(job: Job, hp: seq<Huft>, tabs: Tabs, hn0: nat, hn: nat)
    requires job.Valid() && Built(job, hp, tabs, hn0, hn)
    ensures NoJump(job) <==> Narrow(job, tabs)
  {
    hide Low, LenAt, BitsAt, AllRight, Off, SlotOK, Pos, NoJump, Complete, TabOK;
    if Narrow(job, tabs) {
      NarrowIsNoJump(job, hp, tabs, hn0, hn);
    } else if NoJump(job) {
      WideIsJump(job, hp, tabs, hn0, hn);
    }
  }

  /** When some prefix jumps, some allocated slot still holds what the caller had there. */
  lemma JumpLeavesGap(job: Job, hp0: seq<Huft>, hp: seq<Huft>, tabs: Tabs, hn0: nat, hn: nat)
    requires job.Valid() && Built(job, hp, tabs, hn0, hn) && Untouched(job, hp0, hp, tabs, hn0, hn) && !NoJump(job)
    ensures LeavesGap(hp0, hp, hn0, hn)
  {
    hide Low, LenAt, BitsAt, AllRight, Off, SlotOK, Pos, NoJump, Complete, TabOK;
    NarrowIffNoJump(job, hp, tabs, hn0, hn);
    var b :| b in tabs && tabs[b].j > job.l;
    Pow2Mono(job.l, tabs[b].j);
    assert Kept(hp0, hp, b, Pow2(job.l));
    assert hp[b + Pow2(job.l)] == hp0[b + Pow2(job.l)];
  }

  /** The slot idx of the table at b was written. */
  predicate Written(log: seq<nat>, b: nat, idx: nat) { b + idx in log }

  /** The slot idx of the table at b is there and says what it must. */
  ghost predicate SlotRight(job: Job, hp: seq<Huft>, tabs: Tabs, b: nat, idx: nat)
    requires job.Valid() && b in tabs
  {
    tabs[b].Fits() && b + idx < |hp| && SlotOK(job, hp, tabs, b, idx)
  }

  /**
   * Every slot of every table is written exactly when no prefix jumps, and each is then right:
   * it has the entry of the code that owns its strings or a link to the table that serves them.
   */
  lemma RightIffNoJump(job: Job, hp0: seq<Huft>, hp: seq<Huft>, tabs: Tabs, hn0: nat, hn: nat, log: seq<nat>)
    requires job.Valid() && Built(job, hp, tabs, hn0, hn) && WrittenOnce(job, hp0, hp, tabs, hn0, hn, log)
    ensures NoJump(job) <==> forall b, idx: nat | b in tabs && idx < Pow2(tabs[b].j) :: Written(log, b, idx)
    ensures NoJump(job) ==> forall b, idx: nat | b in tabs && idx < Pow2(tabs[b].j) :: SlotRight(job, hp, tabs, b, idx)
  {
    hide Low, LenAt, BitsAt, AllRight, Off, SlotOK, Pos, NoJump, Complete, TabOK, Written, Writes, Pow2, SlotRight;
    NarrowIffNoJump(job, hp, tabs, hn0, hn);
    if NoJump(job) {
      forall b, idx: nat | b in tabs && idx < Pow2(tabs[b].j)
        ensures Written(log, b, idx) && SlotRight(job, hp, tabs, b, idx)
      {
        SlotThere(job, hp0, hp, tabs, hn0, hn, log, b, idx);
      }
    } else {
      var b :| b in tabs && tabs[b].j > job.l;
      Pow2Mono(job.l, tabs[b].j);
      NotWritten(job, hp0, hp, tabs, hn0, hn, log, b, Pow2(job.l));
    }
  }

  lemma SlotThere(job: Job, hp0: seq<Huft>, hp: seq<Huft>, tabs: Tabs, hn0: nat, hn: nat, log: seq<nat>, b: nat,
                  idx: nat)
    requires job.Valid() && Built(job, hp, tabs, hn0, hn) && WrittenOnce(job, hp0, hp, tabs, hn0, hn, log)
    requires Narrow(job, tabs) && b in tabs && idx < Pow2(tabs[b].j)
    ensures Written(log, b, idx) && SlotRight(job, hp, tabs, b, idx)
  {
    hide Low, LenAt, BitsAt, Off, SlotOK, Pos, Complete, TabOK, Writes, Pow2, Level;
    TabFacts(job, tabs[b]);
    NarrowAt(job, tabs, b);
    Pow2Mono(tabs[b].j, job.l);
    assert Reachable(job.l, log, b, idx);
  }

  /** When some prefix jumps, some entry of the space taken is never written. */
  lemma JumpUnwritten(job: Job, hp0: seq<Huft>, hp: seq<Huft>, tabs: Tabs, hn0: nat, hn: nat, log: seq<nat>)
    requires job.Valid() && Built(job, hp, tabs, hn0, hn) && WrittenOnce(job, hp0, hp, tabs, hn0, hn, log)
    requires !NoJump(job)
    ensures exists a :: hn0 <= a < hn && a !in log
  {
    hide Low, LenAt, BitsAt, AllRight, Off, Pos, NoJump, Complete, TabOK, Writes, Pow2;
    RightIffNoJump(job, hp0, hp, tabs, hn0, hn, log);
    var b, idx: nat :| b in tabs && idx < Pow2(tabs[b].j) && !Written(log, b, idx);
    assert hn0 <= b + idx < hn;
  }

  lemma NotWritten(job: Job, hp0: seq<Huft>, hp: seq<Huft>, tabs: Tabs, hn0: nat, hn: nat, log: seq<nat>, b: nat,
                   idx: nat)
    requires job.Valid() && WrittenOnce(job, hp0, hp, tabs, hn0, hn, log) && b in tabs
    requires Pow2(job.l) <= idx < Pow2(tabs[b].j)
    ensures !Written(log, b, idx)
  {
    hide Writes, Pow2;
    assert Reachable(job.l, log, b, idx);
  }

  /** A complete set of fewer than 2^(l+1) codes never jumps; all of zlib's callers are of this kind. */
  lemma FewCodes(job: Job)
    requires job.Valid() && Off(job.c, 16) < Pow2(job.l + 1)
    ensures NoJump(job)
  {
    hide Low, LenAt, Pow2, Pos, Level, Off;
    forall w: nat | Level(job.l, w) && w + job.l < job.g
      ensures Pos(job.c, w + job.l) + Pow2(15 - w) > Pow2(15)
    {
      FewAt(job, w);
    }
  }

  lemma FewAt(job: Job, w: nat)
    requires job.Valid() && Off(job.c, 16) < Pow2(job.l + 1) && w + job.l < job.g
    ensures Pos(job.c, w + job.l) + Pow2(15 - w) > Pow2(15)
  {
    hide Low, LenAt, Pow2, Pos, Level, Off;
    var m := w + job.l;
    OffMono(job.c, m + 1, 16);
    Tail(job.c, m, 15);
    CompletePos(job.c, job.g, 15);
    ShlGap(Off(job.c, 16) - Off(job.c, m + 1), Pow2(job.l + 1), 14 - m);
    ShlPow2(job.l + 1, 14 - m);
    Pow2Pos(14 - m);
  }

  /** Codes longer than m take at most 2^(14-m) strings each. */
  lemma {:induction false} Tail(c: Counts, m: nat, k: nat)
    requires 1 <= m <= k <= 15 && m < 15
    ensures Off(c, m + 1) <= Off(c, k + 1)
    ensures Pos(c, k) <= Pos(c, m) + Shl(Off(c, k + 1) - Off(c, m + 1), 14 - m)
    decreases k
  {
    hide Pos, Shl, Pow2;
    OffMono(c, m + 1, k + 1);
    if k > m {
      Tail(c, m, k - 1);
      OffMono(c, m + 1, k);
      PosNext(c, k);
      ShlWider(c[k], 15 - k, 14 - m);
      ShlAdd(Off(c, k) - Off(c, m + 1), c[k], 14 - m);
    }
  }

  lemma {:induction false} ShlWider(a: nat, m: nat, n: nat)
    requires m <= n
    ensures Shl(a, m) <= Shl(a, n)
    decreases n - m
  {
    if m < n {
      ShlWider(a, m, n - 1);
    }
  }
}
