/** How each step of infblock.c keeps standing for the abstract machine, on the values of the state. */
module InflateFits {
  import opened Arith
  import opened HuftSpec
  import opened CodeLengths
  import opened InflateTrees
  import opened FixedTrees
  import opened Stream
  import opened OutputWindow
  import opened InflateSpec
  import opened InflateState

  /** What never changes: the stream, the first window contents and the tables of the fixed trees. */
  datatype Env = Env(input: seq<byte>, base: seq<byte>, fixed: seq<Huft>, ftl: nat, ftd: nat, flit: Marks, fdist: Marks)
  {
    ghost predicate Ok() {
      && |base| > 0
      && FixedLitTree().Ok() && FixedLitTree().In(fixed, ftl, flit.hn, flit.tabs)
      && FixedDistTree().Ok() && FixedDistTree().In(fixed, ftd, fdist.hn, fdist.tabs)
    }
  }

  /** The abstract state stood for, the steps that lead to it, and the tables in use. */
  datatype Shadow = Shadow(a: AState, steps: nat, bits: Marks, lit: Marks, dist: Marks)

  /** The parts of the concrete state besides the mode. */
  datatype View = View(last: bool, bp: nat, bitk: nat, ahead: nat, out: seq<byte>, hufts: seq<Huft>)

  /** The machine reaches the shadow's state, at this bit position and with this output. */
  ghost predicate Reached(e: Env, g: Shadow, v: View) {
    && |e.base| > 0 && WF(g.a) && Run(e.input, e.base, g.steps) == Some(g.a)
    && g.a.bp == v.bp && g.a.out == v.out && g.a.last == v.last
  }

  /** What LENS and STORED know about the bit buffer. */
  predicate BufferOK(mode: BlockPart, bitk: nat, ahead: nat) {
    (mode.LENS? ==> bitk % 8 == 0) && (mode.STORED? ==> bitk == 0 && ahead == 0)
  }

  /** The concrete state stands for the shadow's. */
  ghost predicate Fits(e: Env, mode: BlockPart, g: Shadow, v: View) {
    && e.Ok() && Reached(e, g, v)
    && BlockRel(mode, g.a.mode, v.hufts, e.fixed, g.bits, g.lit, g.dist, e.input, v.bp)
    && BufferOK(mode, v.bitk, v.ahead)
  }

  /** With limit bytes supplied the machine can do nothing more. */
  ghost predicate Stuck(e: Env, g: Shadow, limit: nat) {
    |e.base| > 0 && limit <= |e.input| && WF(g.a) && Step(e.input, e.base, limit, g.a).None?
  }

  /** The shadow after a step to b. */
  function Next(g: Shadow, b: AState): Shadow {
    g.(a := b, steps := g.steps + 1)
  }

  /** The view at an abstract state. */
  function At(v: View, b: AState): View {
    v.(last := b.last, bp := b.bp, out := b.out)
  }

  lemma ReachedNext(e: Env, g: Shadow, v: View, limit: nat, b: AState)
    requires Reached(e, g, v) && limit <= |e.input| && Step(e.input, e.base, limit, g.a) == Some(b)
    ensures Reached(e, Next(g, b), At(v, b)) && WF(b)
  {
    hide Step, WF;
    StepMore(e.input, e.base, limit, |e.input|, g.a);
    StepWF(e.input, e.base, |e.input|, g.a);
  }

  /** Neither the marks nor the buffer matter for what is reached. */
  lemma ReachedAlso(e: Env, g: Shadow, v: View, g': Shadow, v': View)
    requires Reached(e, g, v) && g'.a == g.a && g'.steps == g.steps
    requires v'.last == v.last && v'.bp == v.bp && v'.out == v.out
    ensures Reached(e, g', v')
  {
    hide Run, WF;
  }

  lemma FitsFacts(e: Env, mode: BlockPart, g: Shadow, v: View)
    requires Fits(e, mode, g, v)
    ensures e.Ok() && |e.base| > 0 && WF(g.a) && Reached(e, g, v)
    ensures g.a.bp == v.bp && g.a.out == v.out && g.a.last == v.last
    ensures BlockRel(mode, g.a.mode, v.hufts, e.fixed, g.bits, g.lit, g.dist, e.input, v.bp)
    ensures BufferOK(mode, v.bitk, v.ahead)
  {
    hide Run, WF, BlockRel, Env.Ok, BufferOK;
  }

  /** Filling and draining the bit buffer changes nothing that matters, short of a stored block. */
  lemma FitsBuffer(e: Env, mode: BlockPart, g: Shadow, v: View, bitk: nat, ahead: nat)
    requires Fits(e, mode, g, v) && BufferOK(mode, bitk, ahead)
    ensures Fits(e, mode, g, v.(bitk := bitk, ahead := ahead))
  {
    hide Run, WF, BlockRel, Env.Ok, BufferOK;
  }

  /** In these modes nothing is left to do. */
  lemma EndStuck(e: Env, g: Shadow, limit: nat)
    requires |e.base| > 0 && limit <= |e.input| && WF(g.a)
    ensures g.a.mode.Bad? || g.a.mode.Done? || (g.a.mode.InCodes? && g.a.mode.cm.BadCode?) ==> Stuck(e, g, limit)
  {
    hide Accept, TreesWF;
  }

  // ---- TYPE ----

  lemma TypeStuck(e: Env, g: Shadow, v: View, limit: nat)
    requires limit <= |e.input| && v.bp + 3 > 8 * limit && Fits(e, TYPE, g, v)
    ensures Stuck(e, g, limit)
  {
    hide Run, Env.Ok;
  }

  /** What TYPE does with the three bits t. */
  function TypeMode(ftl: nat, ftd: nat, t: nat): BlockPart {
    if t / 2 == 0 then LENS
    else if t / 2 == 1 then CODES(CodesState(START, true, 9, 5, ftl, ftd))
    else if t / 2 == 2 then TABLE
    else BAD
  }

  lemma TypeModeIs(ftl: nat, ftd: nat, t: nat)
    ensures TypeMode(ftl, ftd, t).BAD? <==> t / 2 >= 3
    ensures !TypeMode(ftl, ftd, t).DONE? && !TypeMode(ftl, ftd, t).DRY?
    ensures TypeMode(ftl, ftd, t).CODES? ==> TypeMode(ftl, ftd, t).codes.part == START
  {
  }

  lemma TypeFits(e: Env, g: Shadow, v: View, limit: nat, t: nat, v': View) returns (g': Shadow)
    requires limit <= |e.input| && v.bp + 3 <= 8 * limit && t == Peek(e.input, v.bp, 3)
    requires t / 2 == 0 ==> v'.bitk % 8 == 0
    requires v'.last == (t % 2 == 1) && v'.out == v.out && v'.hufts == v.hufts
    requires v'.bp == if t / 2 == 0 then AlignUp(v.bp + 3) else v.bp + 3
    requires Fits(e, TYPE, g, v)
    ensures g'.steps > g.steps
    ensures Fits(e, TypeMode(e.ftl, e.ftd, t), g', v')
    ensures t / 2 >= 3 ==> Stuck(e, g', limit)
  {
    hide Run, Peek, FixedLitTree, FixedDistTree, AlignUp, Step, WF, TreesRel, Env.Ok, Reached;
    FitsFacts(e, TYPE, g, v);
    var b := TypeStep(e.input, limit, g.a).value;
    StepType(e, g, limit);
    ReachedNext(e, g, v, limit, b);
    g' := Next(g, b).(lit := e.flit, dist := e.fdist);
    ReachedAlso(e, Next(g, b), At(v, b), g', v');
    FixedRoots(e, g'.lit, g'.dist);
    EndStuck(e, g', limit);
  }

  lemma StepType(e: Env, g: Shadow, limit: nat)
    requires |e.base| > 0 && limit <= |e.input| && WF(g.a) && g.a.mode.Type?
    ensures Step(e.input, e.base, limit, g.a) == TypeStep(e.input, limit, g.a)
  {
    hide WF, TypeStep;
  }

  lemma FixedRoots(e: Env, lit: Marks, dist: Marks)
    requires e.Ok() && lit == e.flit && dist == e.fdist
    ensures TreesRel(CodesState(START, true, 9, 5, e.ftl, e.ftd), FixedLitTree(), Some(FixedDistTree()), e.fixed, lit,
                     dist)
  {
    hide Tree.In, Tree.Ok, CountsOf, FixedLit, FixedDist, Order, Over, Root, Width, TreesWF, TotalUsed;
    FixedWF();
    FixedSizes();
    RootIs(FixedLitTree());
    RootIs(FixedDistTree());
  }

  // ---- stored blocks ----

  lemma LensStuck(e: Env, g: Shadow, v: View, limit: nat)
    requires limit <= |e.input| && v.bp + 32 > 8 * limit && Fits(e, LENS, g, v)
    ensures Stuck(e, g, limit)
  {
    hide Run, Env.Ok;
  }

  lemma LensBuffer(e: Env, g: Shadow, v: View)
    requires Fits(e, LENS, g, v)
    ensures v.bitk % 8 == 0
  {
    hide Run, Env.Ok, Reached, BlockRel;
  }

  /** What LENS does with the two lengths. */
  function LensMode(n: nat, m: nat, last: bool): BlockPart {
    if n + m != 65535 then BAD else if n > 0 then STORED(n) else if last then DRY else TYPE
  }

  lemma LensModeIs(n: nat, m: nat, last: bool)
    ensures LensMode(n, m, last).BAD? <==> n + m != 65535
    ensures !LensMode(n, m, last).DONE? && !LensMode(n, m, last).CODES?
  {
  }

  lemma LensFits(e: Env, g: Shadow, v: View, limit: nat, v': View) returns (g': Shadow)
    requires limit <= |e.input| && v.bp + 32 <= 8 * limit
    requires v'.last == v.last && v'.out == v.out && v'.hufts == v.hufts
    requires var n, m := Peek(e.input, v.bp, 16), Peek(e.input, v.bp + 16, 16);
      if n + m != 65535 then v'.bp == v.bp else v'.bp == v.bp + 32 && v'.bitk == 0 && v'.ahead == 0
    requires Fits(e, LENS, g, v)
    ensures g'.steps > g.steps
    ensures var n, m := Peek(e.input, v.bp, 16), Peek(e.input, v.bp + 16, 16);
      Fits(e, LensMode(n, m, v.last), g', v') && (n + m != 65535 ==> Stuck(e, g', limit))
  {
    hide Run, Peek, Step, WF, Env.Ok, Reached;
    FitsFacts(e, LENS, g, v);
    var b := LensStep(e.input, limit, g.a).value;
    StepLens(e, g, limit);
    ReachedNext(e, g, v, limit, b);
    g' := Next(g, b);
    ReachedAlso(e, g', At(v, b), g', v');
    EndStuck(e, g', limit);
  }

  lemma StepLens(e: Env, g: Shadow, limit: nat)
    requires |e.base| > 0 && limit <= |e.input| && WF(g.a) && g.a.mode.Lens?
    ensures Step(e.input, e.base, limit, g.a) == LensStep(e.input, limit, g.a)
  {
    hide WF, LensStep;
  }

  lemma StoredStuck(e: Env, left: nat, g: Shadow, v: View, limit: nat)
    requires limit <= |e.input| && v.bp + 8 > 8 * limit && Fits(e, STORED(left), g, v)
    ensures Stuck(e, g, limit)
  {
    hide Run, Env.Ok;
  }

  /** The mode once t bytes of the stored block are copied. */
  function AfterStored(left: nat, t: nat, last: bool): BlockPart {
    if left > t then STORED(left - t) else if last then DRY else TYPE
  }

  lemma AfterStoredIs(left: nat, t: nat, last: bool)
    ensures var m := AfterStored(left, t, last); !m.BAD? && !m.DONE? && !m.CODES?
  {
  }

  /** Copying t bytes at once is t steps of one byte. */
  lemma {:induction false} StoredFits(e: Env, left: nat, g: Shadow, v: View, pos: nat, limit: nat, t: nat, v': View)
    returns (g': Shadow)
    requires 1 <= t <= left && pos + t <= limit <= |e.input| && v.bp == 8 * pos
    requires v' == v.(bp := 8 * (pos + t), out := v.out + e.input[pos..pos + t])
    requires Fits(e, STORED(left), g, v)
    ensures g'.steps > g.steps
    ensures Fits(e, AfterStored(left, t, v.last), g', v')
    decreases t
  {
    hide Run, Step, WF, Env.Ok, Reached, BlockRel;
    if t > 1 {
      var o := v.out + e.input[pos..pos + t - 1];
      var w := v.(bp := 8 * (pos + t - 1), out := o);
      g' := StoredFits(e, left, g, v, pos, limit, t - 1, w);
      g' := StoredOne(e, left - (t - 1), g', w, pos + t - 1, limit);
      assert v'.out == o + [e.input[pos + t - 1]];
    } else {
      g' := StoredOne(e, left, g, v, pos, limit);
      assert e.input[pos..pos + 1] == [e.input[pos]];
    }
  }

  lemma StoredOne(e: Env, left: nat, g: Shadow, v: View, pos: nat, limit: nat) returns (g': Shadow)
    requires pos < limit <= |e.input| && v.bp == 8 * pos && Fits(e, STORED(left), g, v)
    ensures g'.steps > g.steps
    ensures Fits(e, AfterStored(left, 1, v.last), g', v.(bp := 8 * (pos + 1), out := v.out + [e.input[pos]]))
  {
    hide Run, Env.Ok, Reached, WF, Step;
    FitsFacts(e, STORED(left), g, v);
    StoredFacts(e, left, g, v);
    StepStored(e, g, limit, pos);
    var b := Step(e.input, e.base, limit, g.a).value;
    ReachedNext(e, g, v, limit, b);
    g' := Next(g, b);
  }

  lemma StepStored(e: Env, g: Shadow, limit: nat, pos: nat)
    requires |e.base| > 0 && limit <= |e.input| && WF(g.a) && g.a.mode.Stored? && g.a.bp == 8 * pos && pos < limit
    ensures g.a.mode.left > 0
    ensures Step(e.input, e.base, limit, g.a)
         == Some(g.a.(bp := 8 * (pos + 1), out := g.a.out + [e.input[pos]],
                      mode := if g.a.mode.left > 1 then Stored(g.a.mode.left - 1) else if g.a.last then Dry else Type))
  {
    assert g.a.bp / 8 == pos;
  }

  lemma StoredFacts(e: Env, left: nat, g: Shadow, v: View)
    requires Fits(e, STORED(left), g, v)
    ensures left > 0 && v.bitk == 0 && v.ahead == 0
  {
    hide Run, Env.Ok;
  }

  // ---- the header of a dynamic block ----

  lemma TableStuck(e: Env, g: Shadow, v: View, limit: nat)
    requires limit <= |e.input| && v.bp + 14 > 8 * limit && Fits(e, TABLE, g, v)
    ensures Stuck(e, g, limit)
  {
    hide Run, Env.Ok;
  }

  lemma StepTable(e: Env, g: Shadow, limit: nat)
    requires |e.base| > 0 && limit <= |e.input| && WF(g.a) && g.a.mode.Table?
    ensures Step(e.input, e.base, limit, g.a) == TableStep(e.input, limit, g.a)
  {
    hide WF, TableStep;
  }

  lemma TableSizes(t: nat)
    ensures LitCount(t) + DistCount(t) == 258 + t % 32 + (t / 32) % 32
  {
  }

  /** The lengths of a dynamic block before any is read. */
  function NoLengths(n: nat): (s: seq<nat>)
    ensures |s| == n
  {
    seq(n, _ => 0)
  }

  lemma TableFits(e: Env, g: Shadow, v: View, limit: nat, t: nat, v': View) returns (g': Shadow)
    requires limit <= |e.input| && v.bp + 14 <= 8 * limit && t == Peek(e.input, v.bp, 14)
    requires v'.bp == v.bp + (if t % 32 > 29 || (t / 32) % 32 > 29 then 0 else 14)
    requires v'.out == v.out && v'.last == v.last && v'.hufts == v.hufts
    requires Fits(e, TABLE, g, v)
    ensures g'.steps > g.steps
    ensures if t % 32 > 29 || (t / 32) % 32 > 29 then Fits(e, BAD, g', v') && Stuck(e, g', limit)
            else Fits(e, BTREE(t, 0, NoLengths(258 + t % 32 + (t / 32) % 32)), g', v')
  {
    hide Run, Peek, Step, WF, Env.Ok, Reached, LitCount, DistCount;
    FitsFacts(e, TABLE, g, v);
    var b := TableStep(e.input, limit, g.a).value;
    StepTable(e, g, limit);
    TableSizes(t);
    ReachedNext(e, g, v, limit, b);
    g' := Next(g, b);
    ReachedAlso(e, g', At(v, b), g', v');
    EndStuck(e, g', limit);
  }

  lemma StepBTree(e: Env, g: Shadow, limit: nat)
    requires |e.base| > 0 && limit <= |e.input| && WF(g.a) && g.a.mode.BTree?
    ensures Step(e.input, e.base, limit, g.a) == BTreeStep(e.input, limit, g.a, g.a.mode.table, g.a.mode.got)
  {
    hide WF, BTreeStep;
  }

  /** The code lengths read so far, in a dynamic block's header. */
  ghost function Got(g: Shadow): seq<nat> {
    if g.a.mode.BTree? || g.a.mode.DTree? then g.a.mode.got else []
  }

  lemma BTreeFacts(e: Env, table: nat, index: nat, blens: seq<nat>, g: Shadow, v: View)
    requires Fits(e, BTREE(table, index, blens), g, v)
    ensures g.a.mode == BTree(table, Got(g))
    ensures BTreeWF(table, Got(g)) && BTreeRel(index, blens, table, Got(g))
  {
    hide Run, Env.Ok, BTreeRel, BTreeWF;
  }

  lemma BorderRange()
    ensures forall i, j | 0 <= i < j < 19 :: Border(i) != Border(j)
  {
  }

  lemma BorderInverse()
    ensures |SENT_AT| == 19 && forall k | 0 <= k < 19 :: SENT_AT[k] < 19 && Border(SENT_AT[k]) == k
  {
  }

  lemma BTreeStuck(e: Env, table: nat, index: nat, blens: seq<nat>, g: Shadow, v: View, limit: nat)
    requires limit <= |e.input| && index < LenCodes(table) && v.bp + 3 > 8 * limit
    requires Fits(e, BTREE(table, index, blens), g, v)
    ensures Stuck(e, g, limit)
  {
    hide Run, Env.Ok, WF, BlockRel, Reached;
    FitsFacts(e, BTREE(table, index, blens), g, v);
    BTreeFacts(e, table, index, blens, g, v);
    StepBTree(e, g, limit);
  }

  lemma BTreeAdd(index: nat, blens: seq<nat>, table: nat, got: seq<nat>, x: nat)
    requires index < 19 <= |blens| && BTreeRel(index, blens, table, got)
    ensures BTreeRel(index + 1, blens[Border(index) := x], table, got + [x])
  {
    hide Border, LitCount, DistCount;
    BorderRange();
  }

  lemma BTreeSizes(index: nat, blens: seq<nat>, table: nat, got: seq<nat>)
    requires BTreeRel(index, blens, table, got) && BTreeWF(table, got)
    ensures index == |got| <= LenCodes(table) <= 19 && 258 <= |blens| == LitCount(table) + DistCount(table)
  {
    hide Border;
  }

  /** The sizes that the BTREE loop relies on. */
  lemma BTreeRoom(e: Env, table: nat, index: nat, blens: seq<nat>, g: Shadow, v: View)
    requires Fits(e, BTREE(table, index, blens), g, v)
    ensures index <= LenCodes(table) <= 19 && 258 <= |blens|
  {
    hide Fits, BTreeRel, BTreeWF, LenCodes;
    BTreeFacts(e, table, index, blens, g, v);
    BTreeSizes(index, blens, table, Got(g));
  }

  lemma BTreeRead(e: Env, table: nat, index: nat, blens: seq<nat>, g: Shadow, v: View, limit: nat, v': View)
    returns (g': Shadow)
    requires Fits(e, BTREE(table, index, blens), g, v)
    requires limit <= |e.input| && index < LenCodes(table) && index < 19 <= |blens| && v.bp + 3 <= 8 * limit
    requires v'.bp == v.bp + 3 && v'.out == v.out && v'.last == v.last && v'.hufts == v.hufts
    ensures g'.steps > g.steps
    ensures Fits(e, BTREE(table, index + 1, blens[Border(index) := Peek(e.input, v.bp, 3)]), g', v')
  {
    hide Run, Env.Ok, WF, Peek, Step, Reached, LenCodes, Border, BTreeRel, BTreeWF;
    FitsFacts(e, BTREE(table, index, blens), g, v);
    BTreeFacts(e, table, index, blens, g, v);
    BTreeSizes(index, blens, table, Got(g));
    StepBTree(e, g, limit);
    BTreeAdd(index, blens, table, Got(g), Peek(e.input, v.bp, 3));
    var b := BTreeStep(e.input, limit, g.a, table, Got(g)).value;
    ReachedNext(e, g, v, limit, b);
    g' := Next(g, b);
    ReachedAlso(e, g', At(v, b), g', v');
  }

  /** The lengths sent, and zero for the others. */
  predicate Zeroed(blens: seq<nat>, was: seq<nat>, index: nat) {
    19 <= |blens| == |was| && forall i | 0 <= i < 19 :: blens[Border(i)] == if i < index then was[Border(i)] else 0
  }

  /** The loop of BTREE that zeroes the lengths not sent. */
  method ZeroRest(was: seq<nat>, index: nat) returns (blens: seq<nat>)
    requires 19 <= |was|
    ensures Zeroed(blens, was, index)
  {
    hide Border;
    BorderRange();
    blens := was;
    var i := index;
    while i < 19
      invariant index <= i && |blens| == |was|
      invariant forall k | 0 <= k < 19 :: blens[Border(k)] == if index <= k < i then 0 else was[Border(k)]
    {
      blens := blens[Border(i) := 0];
      i := i + 1;
    }
  }

  lemma BTreeSmall(e: Env, table: nat, index: nat, was: seq<nat>, g: Shadow, v: View, blens: seq<nat>)
    requires Zeroed(blens, was, index) && Fits(e, BTREE(table, index, was), g, v)
    ensures 19 <= |blens| && forall i | 0 <= i < 19 :: blens[..19][i] <= 7
  {
    hide Fits, BTreeRel, Zeroed;
    BTreeFacts(e, table, index, was, g, v);
    BTreeLengths(index, was, table, Got(g), blens);
    BTreeSame(blens, was, index);
  }

  lemma BitsBuiltIs(cl: seq<nat>, hufts: seq<Huft>, bb: nat, tb: nat, m: Marks, ok: bool)
    requires ok <==> Accept(BitsTree(cl))
    requires ok ==> BitsTree(cl).In(hufts, tb, m.hn, m.tabs) && bb == Width(CountsOf(cl), 7)
    ensures BitsBuilt(cl, hufts, bb, tb, m)
  {
    hide Accept, Tree.In, CountsOf, Width;
  }

  /** The first 19 entries are then the lengths by symbol. */
  lemma BTreeLengths(index: nat, was: seq<nat>, table: nat, got: seq<nat>, blens: seq<nat>)
    requires BTreeRel(index, was, table, got) && Zeroed(blens, was, index)
    ensures blens[..19] == Unpermute(got)
  {
    hide Border, SENT_AT;
    BorderInverse();
    var cl := Unpermute(got);
    forall k | 0 <= k < 19
      ensures blens[k] == cl[k]
    {
      assert blens[Border(SENT_AT[k])] == if SENT_AT[k] < |got| then got[SENT_AT[k]] else 0;
    }
  }

  /** The tables of an accepted code-length code stand in hufts. */
  ghost predicate BitsBuilt(cl: seq<nat>, hufts: seq<Huft>, bb: nat, tb: nat, m: Marks) {
    Accept(BitsTree(cl)) ==> BitsTree(cl).In(hufts, tb, m.hn, m.tabs) && bb == Width(CountsOf(cl), 7)
  }

  lemma BTreeDone(e: Env, table: nat, index: nat, was: seq<nat>, g: Shadow, v: View, limit: nat,
                  blens: seq<nat>, hufts: seq<Huft>, bb: nat, tb: nat, m: Marks) returns (g': Shadow)
    requires limit <= |e.input| && index >= LenCodes(table) && Zeroed(blens, was, index)
    requires BitsBuilt(blens[..19], hufts, bb, tb, m)
    requires Fits(e, BTREE(table, index, was), g, v)
    ensures g'.steps > g.steps
    ensures Accept(BitsTree(blens[..19])) ==> Fits(e, DTREE(table, 0, blens, bb, tb), g', v.(hufts := hufts))
    ensures !Accept(BitsTree(blens[..19])) ==> Fits(e, BAD, g', v.(hufts := hufts)) && Stuck(e, g', limit)
  {
    hide Run, Env.Ok, WF, Step, Reached, LenCodes, Accept, Unpermute, BTreeRel, BTreeWF, DTreeRel, BitsBuilt, Zeroed,
      LitCount, DistCount;
    FitsFacts(e, BTREE(table, index, was), g, v);
    BTreeFacts(e, table, index, was, g, v);
    BTreeSizes(index, was, table, Got(g));
    BTreeSame(blens, was, index);
    StepBTree(e, g, limit);
    BTreeLengths(index, was, table, Got(g), blens);
    var b := BTreeStep(e.input, limit, g.a, table, Got(g)).value;
    ReachedNext(e, g, v, limit, b);
    g' := Next(g, b).(bits := m);
    ReachedAlso(e, Next(g, b), At(v, b), g', v.(hufts := hufts));
    EndStuck(e, g', limit);
    if Accept(BitsTree(blens[..19])) {
      DTreeStart(blens, table, hufts, bb, tb, m);
    }
  }

  lemma BTreeSame(blens: seq<nat>, was: seq<nat>, index: nat)
    requires Zeroed(blens, was, index)
    ensures 19 <= |blens| == |was|
  {
  }

  lemma DTreeStart(blens: seq<nat>, table: nat, hufts: seq<Huft>, bb: nat, tb: nat, m: Marks)
    requires 19 <= |blens| == LitCount(table) + DistCount(table)
    requires Accept(BitsTree(blens[..19])) && BitsBuilt(blens[..19], hufts, bb, tb, m)
    ensures DTreeRel(0, blens, bb, tb, table, blens[..19], [], hufts, m)
  {
    hide Accept, Width, CountsOf, Root, Tree.In, LitCount, DistCount;
    AcceptRoot(BitsTree(blens[..19]));
  }

  lemma RootIs(t: Tree)
    requires t.Ok()
    ensures Root(t) == Width(CountsOf(t.b), t.want)
  {
    hide Width, CountsOf, Order, Fill, Over, TotalUsed;
  }

  lemma AcceptRoot(t: Tree)
    requires Accept(t)
    ensures t.Ok() && Root(t) == Width(CountsOf(t.b), t.want)
  {
    hide Width, CountsOf, TotalUsed, Root;
    RootIs(t);
  }
}
