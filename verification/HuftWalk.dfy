/**
 * Which strings lead the walk through huft_build's tables to an entry that was never written, and when there are any.
 */
module HuftWalk {
  import opened Arith
  import opened CanonicalCode
  import opened HuftSpec
  import opened HuftInvariant
  import opened HuftSteps
  import opened HuftLog
  import opened TableBuilder
  import opened InfTrees
  import opened HuftDecode

  /** The entries that a walk looks at. */
  function Looked(hp: seq<Huft>, b: nat, j: nat, p: nat, left: nat): seq<nat>
    decreases left
  {
    var a := b + Low(p, j);
    if a >= |hp| || hp[a].bits == 0 || hp[a].bits > left || !IsLink(hp[a]) then [a]
    else [a] + Looked(hp, a + hp[a].base, hp[a].exop, Shr(p, hp[a].bits), left - hp[a].bits)
  }

  /** The first string with the same w bits. */
  function Prefix(x: nat, w: nat): (y: nat)
    requires w <= 15
    ensures y <= x
  {
    x - Low(x, 15 - w)
  }

  /**
   * Do the bits p, from bit w on, reach a table of more than l bits
   * at a slot beyond its first 2^l? This depends on the code alone.
   */
  predicate Strays(job: Job, p: nat, w: nat)
    requires 1 <= job.l && job.g <= 15
    decreases if w <= 15 then 15 - w else 0
  {
    && w < LenAt(job.c, Rev(p, 15)) && w < 15
    && (Low(Shr(p, w), BitsAt(job, w, Prefix(Rev(p, 15), w))) >= Pow2(job.l) || Strays(job, p, w + job.l))
  }

  ghost predicate LooksAtUnset(looked: seq<nat>, hn0: nat, hn: nat, log: seq<nat>) {
    exists a :: a in looked && hn0 <= a < hn && a !in log
  }

  lemma MoreLooked(a: nat, looked: seq<nat>, hn0: nat, hn: nat, log: seq<nat>)
    ensures LooksAtUnset(looked, hn0, hn, log) ==> LooksAtUnset([a] + looked, hn0, hn, log)
  {
    if LooksAtUnset(looked, hn0, hn, log) {
      var x :| x in looked && hn0 <= x < hn && x !in log;
      assert x in [a] + looked;
    }
  }

  /** The walk from the table at b ends at the entry of the code that owns x. */
  ghost predicate EndsRight(job: Job, hp: seq<Huft>, b: nat, t: Tab, p: nat, x: nat)
    requires job.Valid() && t.w <= 15
  {
    var r := Walk(hp, b, t.j, Shr(p, t.w), 15 - t.w);
    r.Found? && r.n == LenAt(job.c, x) - t.w && EntryFor(job, x, r.e)
  }

  lemma TableHere(job: Job, t: Tab, x: nat)
    requires job.Valid() && TabOK(job, t) && InRange(t, x) && x < Pow2(15)
    ensures t.w < LenAt(job.c, x) && t.w < 15 && t.j == BitsAt(job, t.w, Prefix(x, t.w))
  {
    hide Low, LenAt, BitsAt, Off, Pos, Level, Pow2;
    LenAtMono(job.c, t.lo, x);
    SplitAt(t.lo, 15 - t.w);
    SplitUnique(x, 15 - t.w, x - t.lo, Shr(t.lo, 15 - t.w));
  }

  /** The slot looked at, when it is one of the first 2^l, is the one of the table's reachable part. */
  lemma PartSlot(t: Tab, l: nat, y: nat)
    requires Low(y, t.j) < Pow2(l)
    ensures Low(y, t.Part(l).j) == Low(y, t.j)
  {
    hide Low, Pow2;
    if l < t.j {
      LowLow(y, l, t.j);
      LowSmall(Low(y, t.j), l);
    }
  }

  lemma SlotLogged(job: Job, hp0: seq<Huft>, hp: seq<Huft>, tabs: Tabs, hn0: nat, hn: nat, log: seq<nat>, b: nat,
                   idx: nat)
    requires job.Valid() && Built(job, hp, tabs, hn0, hn) && WrittenOnce(job, hp0, hp, tabs, hn0, hn, log)
    requires b in tabs && idx < Pow2(tabs[b].j)
    ensures hn0 <= b + idx < hn <= |hp| && (b + idx in log <==> idx < Pow2(job.l))
  {
    hide Pow2, Writes, AllRight, TabOK, Complete, Pos, Off;
    assert Reachable(job.l, log, b, idx);
  }

  /**
   * Bits that stray lead the walk to an entry that was never written; all others
   * lead, over written entries only, to the entry of the code that owns them.
   */
  lemma {:induction false} WalkStrays(job: Job, hp0: seq<Huft>, hp: seq<Huft>, tabs: Tabs, hn0: nat, hn: nat,
                                      log: seq<nat>, b: nat, p: nat, x: nat)
    requires job.Valid() && Built(job, hp, tabs, hn0, hn) && WrittenOnce(job, hp0, hp, tabs, hn0, hn, log)
    requires b in tabs && p < Pow2(15) && Rev(p, 15) == x < Pow2(15) && InRange(tabs[b], x)
    ensures tabs[b].w <= 15
    ensures var t := tabs[b]; var looked := Looked(hp, b, t.j, Shr(p, t.w), 15 - t.w);
      if Strays(job, p, t.w) then LooksAtUnset(looked, hn0, hn, log)
      else EndsRight(job, hp, b, t, p, x) && forall a | a in looked :: a in log
    decreases 15 - tabs[b].w
  {
    hide Low, Shr, Shl, Rev, Pow2, TabOK, Level, LenAt, RankAt, LeafExop, LeafBase, BitsAt, AllRight, Space, Off, Pos,
      WrittenOnce, Prefix;
    var t := tabs[b];
    var y := Shr(p, t.w);
    var idx := Low(y, t.j);
    TabFacts(job, t);
    TableHere(job, t, x);
    LowBound(y, t.j);
    SlotLogged(job, hp0, hp, tabs, hn0, hn, log, b, idx);
    assert Looked(hp, b, t.j, y, 15 - t.w)[0] == b + idx;
    if idx < Pow2(job.l) {
      PartSlot(t, job.l, y);
      SlotFor(job, hp, tabs, hn0, hn, b, p, x);
      var u := t.Part(job.l);
      if LeafOK(job, u, u.Slot(idx), hp[b + idx]) {
        SameOwner(job, u, u.Slot(idx), x);
        LeafNotLink(job, IndexAt(job.c, u.Slot(idx)));
        assert !Strays(job, p, t.w + job.l);
      } else {
        var a := b + idx + hp[b + idx].base;
        AllFit(job, tabs, hn0, hn);
        WalkStrays(job, hp0, hp, tabs, hn0, hn, log, a, p, x);
        ShrShr(p, t.w, job.l);
        assert Strays(job, p, t.w) == Strays(job, p, t.w + job.l);
        assert Looked(hp, b, t.j, y, 15 - t.w)
          == [b + idx] + Looked(hp, a, tabs[a].j, Shr(p, tabs[a].w), 15 - tabs[a].w);
        MoreLooked(b + idx, Looked(hp, a, tabs[a].j, Shr(p, tabs[a].w), 15 - tabs[a].w), hn0, hn, log);
      }
    }
  }

  // ---- when some bits stray ----

  /** No table that a walk reaches has more than l bits. */
  lemma NoneWide(job: Job, w: nat, x: nat)
    requires job.Valid() && NoJump(job) && Level(job.l, w) && x < Pow2(15) && w < LenAt(job.c, x) && w < 15
    ensures BitsAt(job, w, Prefix(x, w)) <= job.l
  {
    hide Low, LenAt, BitsAt, Off, Pos, Level, Pow2, NoJump, Prefix;
    PrefixHere(x, w);
    var lo := Prefix(x, w);
    if LenAt(job.c, lo) <= w {
      SameLength(job, w, lo, x);
    }
    NewTable(job, w, lo);
    WideTable(job, Tab(w, BitsAt(job, w, lo), lo));
  }

  lemma PrefixHere(x: nat, w: nat)
    requires w <= 15 && x < Pow2(15)
    ensures Low(Prefix(x, w), 15 - w) == 0 && Prefix(x, w) <= x < Prefix(x, w) + Pow2(15 - w)
    ensures Prefix(x, w) < Pow2(15)
  {
    hide Low, Pow2;
    SplitAt(x, 15 - w);
    LowOfMultiple(Shr(x, 15 - w), 15 - w, 15 - w);
  }

  /** A code of at most w bits owns either all strings of a prefix of w bits or none. */
  lemma SameLength(job: Job, w: nat, lo: nat, x: nat)
    requires job.Valid() && w <= 15 && Low(lo, 15 - w) == 0 && lo <= x < lo + Pow2(15 - w) && lo < Pow2(15)
    requires LenAt(job.c, lo) <= w
    ensures LenAt(job.c, x) == LenAt(job.c, lo)
  {
    hide Low, LenAt, RankAt, Off, Pos, Pow2, Complete;
    SameOwner(job, Tab(w, 0, lo), lo, x);
  }

  lemma {:induction false} NoneStrays(job: Job, p: nat, w: nat)
    requires job.Valid() && NoJump(job) && Level(job.l, w) && p < Pow2(15)
    ensures !Strays(job, p, w)
    decreases if w <= 15 then 15 - w else 0
  {
    hide Low, Shr, LenAt, BitsAt, Off, Pos, Pow2, NoJump, Prefix, Rev;
    var x := Rev(p, 15);
    RevLess(p, 15);
    if w < LenAt(job.c, x) && w < 15 {
      NoneWide(job, w, x);
      var j := BitsAt(job, w, Prefix(x, w));
      LowBound(Shr(p, w), j);
      Pow2Mono(j, job.l);
      NoneStrays(job, p, w + job.l);
    }
  }

  lemma {:induction false} StraysBack(job: Job, p: nat, w: nat)
    requires 1 <= job.l && job.g <= 15 && Level(job.l, w) && Strays(job, p, w)
    ensures Strays(job, p, 0)
  {
    hide Low, Shr, LenAt, BitsAt, Prefix, Rev, Pow2;
    if w > 0 {
      StraysBack(job, p, w - job.l);
    }
  }

  /**
   * In the last prefix of w bits, when no code of at most w + l bits reaches it, one bit set after the next l strays.
   */
  lemma JumpStrays(job: Job, w: nat) returns (p: nat)
    requires job.Valid() && Level(job.l, w) && w + job.l < job.g && Pos(job.c, w + job.l) + Pow2(15 - w) <= Pow2(15)
    ensures p < Pow2(15) && Strays(job, p, w)
  {
    hide Low, Shr, Shl, LenAt, RankAt, BitsAt, Off, Pos, Pow2, Prefix, Rev, Level, TabOK;
    var n := w + job.l;
    var x := LastPrefix(w);
    if LenAt(job.c, x) <= n {
      ShortOwner(job.c, x, n);
      assert false;
    }
    var q := Rev(x, 15);
    LastBits(x, w);
    NewTable(job, w, x);
    WideHere(job, Tab(w, BitsAt(job, w, x), x));
    p := q + Pow2(n);
    OneBitOn(q, w, job.l, BitsAt(job, w, x));
    Pow2Mono(w, n);
    RevBitAdd(q, n);
    PrefixOn(x, w, Pow2(14 - n));
    LenAtMono(job.c, x, x + Pow2(14 - n));
  }

  lemma LastBits(x: nat, w: nat)
    requires w < 15 && x < Pow2(15) && Low(x, 15 - w) == 0
    ensures Rev(x, 15) < Pow2(w) && Rev(Rev(x, 15), 15) == x
  {
    hide Low, Pow2, Rev;
    RevRev(x, 15);
    RevLess(x, 15);
    CounterBound(Rev(x, 15), x, w);
  }

  lemma OneBitOn(q: nat, w: nat, l: nat, j: nat)
    requires q < Pow2(w) && l < j && w + l < 15
    ensures q + Pow2(w + l) < Pow2(15) && Low(Shr(q + Pow2(w + l), w), j) == Pow2(l)
  {
    hide Low, Shr, Shl, Pow2;
    ShlPow2(l, w);
    SplitUnique(q + Pow2(w + l), w, q, Pow2(l));
    Pow2Mono(l + 1, j);
    DoublePow2(l);
    Pow2Pos(l);
    LowSmall(Pow2(l), j);
    Pow2Mono(w, w + l);
    DoublePow2(w + l);
    Pow2Mono(w + l + 1, 15);
  }

  lemma PrefixOn(x: nat, w: nat, d: nat)
    requires w <= 15 && Low(x, 15 - w) == 0 && d < Pow2(15 - w)
    ensures Prefix(x + d, w) == x
  {
    hide Low, Pow2, Shr, Shl;
    SplitAt(x, 15 - w);
    SplitUnique(x + d, 15 - w, d, Shr(x, 15 - w));
  }

  /** Some bits stray exactly when some prefix jumps. */
  lemma StraysIffJump(job: Job)
    requires job.Valid()
    ensures NoJump(job) <==> forall p: nat | p < Pow2(15) :: !Strays(job, p, 0)
  {
    hide Strays, Pos, Level, Pow2, Off;
    if NoJump(job) {
      forall p: nat | p < Pow2(15)
        ensures !Strays(job, p, 0)
      {
        LevelNone(job.l);
        NoneStrays(job, p, 0);
      }
    } else {
      var w: nat :| Level(job.l, w) && w + job.l < job.g && Pos(job.c, w + job.l) + Pow2(15 - w) <= Pow2(15);
      var p := JumpStrays(job, w);
      StraysBack(job, p, w);
    }
  }

  lemma LevelNone(l: nat)
    requires l > 0
    ensures Level(l, 0)
  {
  }

  /**
   * The walk from the first table never looks at an unwritten entry, whatever the bits, exactly when no prefix jumps.
   */
  lemma WalksIffNoJump(job: Job, hp0: seq<Huft>, hp: seq<Huft>, tabs: Tabs, hn0: nat, hn: nat, log: seq<nat>)
    requires job.Valid() && Built(job, hp, tabs, hn0, hn) && WrittenOnce(job, hp0, hp, tabs, hn0, hn, log)
    ensures NoJump(job) <==> forall p: nat | p < Pow2(15) :: !LooksAtUnset(Looked(hp, hn0, job.l, p, 15), hn0, hn, log)
  {
    hide Strays, Pos, Level, Pow2, Off, NoJump, Looked, LooksAtUnset, WrittenOnce, Built;
    StraysIffJump(job);
    if NoJump(job) {
      forall p: nat | p < Pow2(15)
        ensures !LooksAtUnset(Looked(hp, hn0, job.l, p, 15), hn0, hn, log)
      {
        RootWalk(job, hp0, hp, tabs, hn0, hn, log, p);
      }
    } else {
      var p: nat :| p < Pow2(15) && Strays(job, p, 0);
      RootWalk(job, hp0, hp, tabs, hn0, hn, log, p);
    }
  }

  lemma RootWalk(job: Job, hp0: seq<Huft>, hp: seq<Huft>, tabs: Tabs, hn0: nat, hn: nat, log: seq<nat>, p: nat)
    requires job.Valid() && Built(job, hp, tabs, hn0, hn) && WrittenOnce(job, hp0, hp, tabs, hn0, hn, log)
    requires p < Pow2(15)
    ensures Strays(job, p, 0) <==> LooksAtUnset(Looked(hp, hn0, job.l, p, 15), hn0, hn, log)
    ensures !Strays(job, p, 0) ==> EndsRight(job, hp, hn0, Tab(0, job.l, 0), p, Rev(p, 15))
  {
    hide Strays, Pos, Level, Pow2, Off, Looked, WrittenOnce, AllRight, Tables, Rev, LooksAtUnset;
    RevLess(p, 15);
    ShrNone(p);
    assert InRange(Tab(0, job.l, 0), Rev(p, 15));
    WalkStrays(job, hp0, hp, tabs, hn0, hn, log, hn0, p, Rev(p, 15));
    AllSet(Looked(hp, hn0, job.l, p, 15), hn0, hn, log);
  }

  lemma AllSet(looked: seq<nat>, hn0: nat, hn: nat, log: seq<nat>)
    ensures (forall a | a in looked :: a in log) ==> !LooksAtUnset(looked, hn0, hn, log)
  {
  }
}
