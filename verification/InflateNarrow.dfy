/** No lookup of the machine sees more than nine bits at once, because the trees that it uses never jump. */
module InflateNarrow {
  import opened Arith
  import opened CanonicalCode
  import opened HuftSpec
  import HuftInvariant
  import HuftDecode
  import TableBuilder
  import opened CodeLengths
  import opened InflateTrees
  import opened FixedTrees
  import opened Stream
  import opened OutputWindow
  import opened InflateSpec
  import LengthFits
  import opened SymbolRead

  /** The tree never jumps and its first table is not wider than nine bits. */
  ghost predicate Thin(t: Tree) { t.Ok() && NoJump(t.Job()) && t.Job().l <= 9 }

  /** Looking at need bits after w bits of the code at bit p is looking into a table that begins there. */
  ghost predicate AtTable(job: Job, input: seq<byte>, p: nat, w: nat, need: nat)
    requires job.Valid()
  {
    && w + need <= 15 && Level(job.l, w) && w < LenAt(job.c, Seen(input, p, w))
    && need == BitsAt(job, w, Seen(input, p, w))
  }

  /** The machine's trees are thin, and what it looks into are their tables. */
  ghost predicate Narrow(input: seq<byte>, a: AState)
    requires WF(a)
  {
    a.mode.InCodes? ==>
      && Thin(a.mode.lt) && (a.mode.dt.Some? ==> Thin(a.mode.dt.value))
      && (a.mode.cm.Len? ==> InTree(input, a.mode.lt, a.bp, a.mode.cm.w, a.mode.cm.need))
      && (a.mode.cm.Dist? && a.mode.dt.Some? ==> InTree(input, a.mode.dt.value, a.bp, a.mode.cm.w, a.mode.cm.need))
  }

  ghost predicate InTree(input: seq<byte>, t: Tree, bp: nat, w: nat, need: nat) {
    t.Ok() && w <= bp && AtTable(t.Job(), input, bp - w, w, need)
  }

  lemma SeenNone(input: seq<byte>, p: nat)
    ensures Seen(input, p, 0) == 0
  {
    ShlZero(15);
  }

  lemma RootAt(job: Job, input: seq<byte>, p: nat)
    requires job.Valid()
    ensures AtTable(job, input, p, 0, job.l)
  {
    hide Seen, LenAt, BitsAt, Off, Pos;
    SeenNone(input, p);
    TableBuilder.RootBits(job);
  }

  /** A table of a thin tree has at most nine bits. */
  lemma TableThin(job: Job, w: nat, x: nat)
    requires job.Valid() && NoJump(job) && Level(job.l, w) && w <= 15 && x < Pow2(15) && Low(x, 15 - w) == 0
    requires w < LenAt(job.c, x)
    ensures 1 <= BitsAt(job, w, x) <= job.l
  {
    hide Low, LenAt, BitsAt, Off, Pos, Level, Pow2, NoJump;
    HuftInvariant.NewTable(job, w, x);
    HuftDecode.WideTable(job, Tab(w, BitsAt(job, w, x), x));
  }

  lemma SeenMore(input: seq<byte>, p: nat, w: nat, n: nat)
    requires w <= n <= 15
    ensures Seen(input, p, w) <= Seen(input, p, n) < Seen(input, p, w) + Pow2(15 - w)
    ensures Low(Seen(input, p, w), 15 - w) == 0 && Seen(input, p, w) + Pow2(15 - w) <= Pow2(15)
  {
    hide Low, Seen, Ahead, Pow2;
    SeenBelow(input, p, w);
    SeenBelow(input, p, n);
    if Seen(input, p, n) < Seen(input, p, w) {
      HuftInvariant.LowZeroWeaken(Seen(input, p, w), 15 - w, 15 - n);
      HuftInvariant.AlignedGap(Seen(input, p, n), Seen(input, p, w), 15 - n);
    }
    HuftInvariant.LowPow2(15, 15 - w);
    HuftInvariant.AlignedGap(Seen(input, p, w), Pow2(15), 15 - w);
  }

  /** The deeper table that a lookup leads to begins where the lookup ends. */
  lemma DeepAt(job: Job, input: seq<byte>, p: nat, w: nat, need: nat)
    requires job.Valid() && NoJump(job) && AtTable(job, input, p, w, need)
    ensures var r := Look(job, input, p + w, w, need); r.Deeper? ==> AtTable(job, input, p, w + need, r.need)
  {
    hide Low, LenAt, BitsAt, Off, Pos, Pow2, NoJump, Rev, Peek, Shl, Seen;
    var x0, x := Seen(input, p, w), Seen(input, p, w + need);
    LookIs(job, input, p, w, need);
    SeenMore(input, p, w, w + need);
    TableThin(job, w, x0);
    if w + need < LenAt(job.c, x) {
      HuftInvariant.BitsCover(job, w, x0);
      if need < job.l {
        HuftInvariant.LenAtBelow(job.c, x, w + need);
        assert false;
      }
    }
  }

  lemma LookIs(job: Job, input: seq<byte>, p: nat, w: nat, need: nat)
    requires job.g <= 15 && w + need <= 15
    ensures var r, x := Look(job, input, p + w, w, need), Seen(input, p, w + need);
      r.Deeper? ==> w + need < LenAt(job.c, x) && r.need == BitsAt(job, w + need, x)
  {
    hide LenAt, BitsAt, Rev, Peek, Shl, IndexAt;
  }

  /** No lookup into a thin tree needs more than nine bits. */
  lemma NeedNine(input: seq<byte>, t: Tree, bp: nat, w: nat, need: nat)
    requires Thin(t) && InTree(input, t, bp, w, need)
    ensures need <= 9
  {
    hide Low, LenAt, BitsAt, Pow2, NoJump, Seen, Level, Tree.Ok;
    SeenMore(input, bp - w, w, w);
    TableThin(t.Job(), w, Seen(input, bp - w, w));
  }

  // ---- steps ----

  lemma FixedThin()
    ensures Thin(FixedLitTree()) && Thin(FixedDistTree())
  {
    hide FixedLit, FixedDist, NoJump, TotalUsed, CountsOf, Over;
    FixedOk();
    FixedSizes();
  }

  lemma DynThin(ll: seq<nat>, dl: seq<nat>)
    requires DynAccept(ll, dl) && |ll| <= 286 && |dl| <= 30
    ensures Thin(LitTree(ll)) && (!DistTree(dl).Empty() ==> Thin(DistTree(dl)))
  {
    hide Accept, NoJump, Tree.Job, Tree.Empty;
    Small();
    LitThin(LitTree(ll));
    if !DistTree(dl).Empty() {
      LitThin(DistTree(dl));
    }
  }

  lemma LitThin(t: Tree)
    requires Accept(t) && |t.b| < Pow2(t.want + 1) && 1 <= t.want <= 9
    ensures Thin(t)
  {
    hide Accept, NoJump, Tree.Job, CountsOf, Over, Pow2;
    AcceptProper(t);
    AcceptNoJump(t);
    AcceptWidth(t);
  }

  lemma RootTree(input: seq<byte>, t: Tree, bp: nat)
    requires t.Ok()
    ensures InTree(input, t, bp, 0, Root(t))
  {
    hide Tree.Ok, AtTable;
    RootAt(t.Job(), input, bp);
  }

  lemma DeepTree(input: seq<byte>, t: Tree, bp: nat, w: nat, need: nat)
    requires Thin(t) && InTree(input, t, bp, w, need)
    ensures w <= bp && w + need <= 15
    ensures var r := TreeLook(t, input, bp, w, need); r.Deeper? ==> InTree(input, t, bp + need, w + need, r.need)
  {
    hide Tree.Ok, NoJump, Look, LenAt, BitsAt, Seen, Level, CountsOf, Over, Order, Off, Fill, Width;
    DeepAt(t.Job(), input, bp - w, w, need);
  }

  lemma CodesNarrow(input: seq<byte>, base: seq<byte>, a: AState)
    requires |base| > 0 && WF(a) && a.mode.InCodes? && Narrow(input, a) && Step(input, base, |input|, a).Some?
    ensures WF(Step(input, base, |input|, a).value) && Narrow(input, Step(input, base, |input|, a).value)
  {
    hide Thin, InTree, TreesWF, TreeLook, TreeSym, Root, HistByte, Tree.Ok, Peek, CodesStep;
    var lt, dt, cm := a.mode.lt, a.mode.dt, a.mode.cm;
    StepWF(input, base, |input|, a);
    TreesFacts(lt, dt);
    match cm
    case Start =>
      RootTree(input, lt, a.bp);
      CodesStart(input, base, a, lt, dt);
    case Len(w, need) =>
      DeepTree(input, lt, a.bp, w, need);
      CodesLen(input, base, a, lt, dt, w, need);
    case LenExt(len, get) =>
      RootTree(input, dt.value, a.bp + get);
      CodesExt(input, base, a, lt, dt, len, get);
    case Dist(len, w, need) =>
      DeepTree(input, dt.value, a.bp, w, need);
      CodesDist(input, base, a, lt, dt, len, w, need);
    case _ =>
      CodesOther(input, base, a, lt, dt, cm);
  }

  lemma CodesStart(input: seq<byte>, base: seq<byte>, a: AState, lt: Tree, dt: Option<Tree>)
    requires |base| > 0 && CodesWF(lt, dt, Start, a.bp) && lt.Ok()
    ensures CodesStep(input, base, |input|, a, lt, dt, Start) == Some(a.(mode := InCodes(lt, dt, Len(0, Root(lt)))))
  {
    hide TreesWF, Tree.Ok, Root;
  }

  lemma CodesLen(input: seq<byte>, base: seq<byte>, a: AState, lt: Tree, dt: Option<Tree>, w: nat, need: nat)
    requires |base| > 0 && CodesWF(lt, dt, Len(w, need), a.bp) && lt.Ok() && w <= a.bp && w + need <= 15
    requires CodesStep(input, base, |input|, a, lt, dt, Len(w, need)).Some?
    ensures var r, m := TreeLook(lt, input, a.bp, w, need),
      CodesStep(input, base, |input|, a, lt, dt, Len(w, need)).value;
      m.mode.InCodes? && m.mode.lt == lt && m.mode.dt == dt && !m.mode.cm.Dist?
      && (m.mode.cm.Len? ==> r.Deeper? && m.bp == a.bp + need && m.mode.cm == Len(w + need, r.need))
  {
    hide TreesWF, Tree.Ok, TreeLook, TreeSym;
  }

  lemma CodesExt(input: seq<byte>, base: seq<byte>, a: AState, lt: Tree, dt: Option<Tree>, len: nat, get: nat)
    requires |base| > 0 && CodesWF(lt, dt, LenExt(len, get), a.bp) && dt.Some? && dt.value.Ok()
    requires CodesStep(input, base, |input|, a, lt, dt, LenExt(len, get)).Some?
    ensures var m := CodesStep(input, base, |input|, a, lt, dt, LenExt(len, get)).value;
      m.mode.InCodes? && m.mode.lt == lt && m.mode.dt == dt && m.bp == a.bp + get && m.mode.cm.Dist? && m.mode.cm.w == 0
      && m.mode.cm.need == Root(dt.value)
  {
    hide TreesWF, Tree.Ok, Root, Peek;
  }

  lemma CodesDist(input: seq<byte>, base: seq<byte>, a: AState, lt: Tree, dt: Option<Tree>, len: nat, w: nat, need: nat)
    requires |base| > 0 && CodesWF(lt, dt, Dist(len, w, need), a.bp) && dt.Some? && dt.value.Ok() && w <= a.bp
    requires w + need <= 15
    requires CodesStep(input, base, |input|, a, lt, dt, Dist(len, w, need)).Some?
    ensures var r, m := TreeLook(dt.value, input, a.bp, w, need),
      CodesStep(input, base, |input|, a, lt, dt, Dist(len, w, need)).value;
      m.mode.InCodes? && m.mode.lt == lt && m.mode.dt == dt && !m.mode.cm.Len?
      && (m.mode.cm.Dist? ==> r.Deeper? && m.bp == a.bp + need && m.mode.cm.w == w + need && m.mode.cm.need == r.need)
  {
    hide TreesWF, Tree.Ok, TreeLook, TreeSym;
  }

  lemma CodesOther(input: seq<byte>, base: seq<byte>, a: AState, lt: Tree, dt: Option<Tree>, cm: CodeMode)
    requires |base| > 0 && CodesWF(lt, dt, cm, a.bp) && !cm.Start? && !cm.Len? && !cm.LenExt? && !cm.Dist?
    requires CodesStep(input, base, |input|, a, lt, dt, cm).Some?
    ensures var m := CodesStep(input, base, |input|, a, lt, dt, cm).value;
      m.mode.InCodes? ==> m.mode.lt == lt && m.mode.dt == dt && !m.mode.cm.Len? && !m.mode.cm.Dist?
  {
    hide TreesWF, Tree.Ok, HistByte, Peek, Root, LenStep, DistStep;
  }

  lemma HeadNarrow(input: seq<byte>, base: seq<byte>, a: AState)
    requires |base| > 0 && WF(a) && !a.mode.InCodes? && Step(input, base, |input|, a).Some?
    ensures WF(Step(input, base, |input|, a).value) && Narrow(input, Step(input, base, |input|, a).value)
  {
    hide Thin, InTree, TreesWF, Tree.Ok, Peek, Accept, DynAccept, ReadLength, FixedLitTree, FixedDistTree, Tree.Empty,
      LitCount, DistCount;
    StepWF(input, base, |input|, a);
    FixedThin();
    if a.mode.DTree? {
      var table, got := a.mode.table, a.mode.got;
      CountsSmall(table);
      if |got| == LitCount(table) + DistCount(table) && DynAccept(got[..LitCount(table)], got[LitCount(table)..]) {
        DynThin(got[..LitCount(table)], got[LitCount(table)..]);
      }
      ReadStays(input, a, table, a.mode.cl, got);
    }
  }

  lemma CountsSmall(table: nat)
    ensures TableWF(table) ==> LitCount(table) <= 286 && DistCount(table) <= 30
  {
  }

  lemma ReadStays(input: seq<byte>, a: AState, table: nat, cl: seq<nat>, got: seq<nat>)
    requires Accept(BitsTree(cl))
    ensures var r := ReadLength(input, |input|, a, table, cl, got); r.Some? ==> !r.value.mode.InCodes?
  {
    hide Accept, ReadSym, Peek, Root, LitCount, DistCount, RepeatBits, RepeatBase;
  }

  /** All along a run the lookups stay narrow. */
  lemma {:induction false} RunNarrow(input: seq<byte>, base: seq<byte>, n: nat)
    requires |base| > 0 && Run(input, base, n).Some?
    ensures Narrow(input, Run(input, base, n).value)
  {
    hide Step, WF, Narrow;
    if n == 0 {
      FirstNarrow(input);
    } else {
      RunNarrow(input, base, n - 1);
      var p := Run(input, base, n - 1).value;
      if p.mode.InCodes? {
        CodesNarrow(input, base, p);
      } else {
        HeadNarrow(input, base, p);
      }
    }
  }

  lemma FirstNarrow(input: seq<byte>)
    ensures WF(INITIAL) && Narrow(input, INITIAL)
  {
  }

  /** So no more than nine bits are ever looked at. */
  lemma AtMostNine(input: seq<byte>, a: AState)
    requires WF(a) && Narrow(input, a) && a.mode.InCodes?
    ensures a.mode.cm.Len? || a.mode.cm.Dist? ==> a.mode.cm.need <= 9
  {
    hide Thin, InTree, TreesWF;
    if a.mode.cm.Len? {
      NeedNine(input, a.mode.lt, a.bp, a.mode.cm.w, a.mode.cm.need);
    } else if a.mode.cm.Dist? {
      NeedNine(input, a.mode.dt.value, a.bp, a.mode.cm.w, a.mode.cm.need);
    }
  }
}
