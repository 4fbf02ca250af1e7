/** DTREE of infblock.c: the code lengths of a dynamic block, on the values of the state. */
module LengthFits {
  import opened Arith
  import opened CanonicalCode
  import opened HuftSpec
  import HuftInvariant
  import HuftDecode
  import InfTrees
  import opened CodeLengths
  import opened InflateTrees
  import opened FixedTrees
  import opened Stream
  import opened OutputWindow
  import opened InflateSpec
  import opened InflateState
  import opened InflateFits

  /** The lengths of the code-length code in use. */
  ghost function Cl(g: Shadow): seq<nat> {
    if g.a.mode.DTree? then g.a.mode.cl else []
  }

  /** The code-length symbol next in the stream and how many bits it takes. */
  ghost function NextLength(e: Env, g: Shadow): (nat, nat) {
    if Accept(BitsTree(Cl(g))) then ReadSym(e.input, g.a.bp, Cl(g)) else (0, 0)
  }

  lemma DTreeFacts(e: Env, table: nat, index: nat, blens: seq<nat>, bb: nat, tb: nat, g: Shadow, v: View)
    requires Fits(e, DTREE(table, index, blens, bb, tb), g, v)
    ensures g.a.mode == DTree(table, Cl(g), Got(g))
    ensures DTreeWF(table, Cl(g), Got(g)) && DTreeRel(index, blens, bb, tb, table, Cl(g), Got(g), v.hufts, g.bits)
  {
    hide Run, Env.Ok, DTreeRel, DTreeWF;
  }

  lemma DTreeSizes(index: nat, blens: seq<nat>, bb: nat, tb: nat, table: nat, cl: seq<nat>, got: seq<nat>,
                   hufts: seq<Huft>, m: Marks)
    requires DTreeRel(index, blens, bb, tb, table, cl, got, hufts, m)
    ensures index == |got| <= |blens| == LitCount(table) + DistCount(table) && blens[..index] == got
    ensures Accept(BitsTree(cl)) && 1 <= bb <= 15 && (|cl| == 19 ==> bb <= 7)
  {
    hide Accept, Root, Tree.In, LitCount, DistCount;
    AcceptRoot(BitsTree(cl));
    if |cl| == 19 {
      AcceptNarrow(BitsTree(cl));
    }
  }

  /** The sizes that the DTREE loop relies on. */
  lemma DTreeRoom(e: Env, table: nat, index: nat, blens: seq<nat>, bb: nat, tb: nat, g: Shadow, v: View)
    requires Fits(e, DTREE(table, index, blens, bb, tb), g, v)
    ensures index <= |blens| == LitCount(table) + DistCount(table) && 1 <= bb <= 7 && TableWF(table)
    ensures g.a.bp == v.bp && forall i | 0 <= i < index :: blens[i] <= 15
  {
    hide Fits, DTreeRel, Accept, LitCount, DistCount, TableWF, Reached, Env.Ok, BlockRel, WF, BufferOK;
    FitsFacts(e, DTREE(table, index, blens, bb, tb), g, v);
    DTreeFacts(e, table, index, blens, bb, tb, g, v);
    DTreeSizes(index, blens, bb, tb, table, Cl(g), Got(g), v.hufts, g.bits);
    assert forall i | 0 <= i < index :: blens[i] == blens[..index][i];
  }

  lemma StepDTree(e: Env, g: Shadow, limit: nat)
    requires |e.base| > 0 && limit <= |e.input| && WF(g.a) && g.a.mode.DTree?
    ensures Accept(BitsTree(g.a.mode.cl)) && |g.a.mode.got| <= LitCount(g.a.mode.table) + DistCount(g.a.mode.table)
    ensures Step(e.input, e.base, limit, g.a)
      == DTreeStep(e.input, limit, g.a, g.a.mode.table, g.a.mode.cl, g.a.mode.got)
  {
    hide Accept, DTreeStep, LitCount, DistCount;
  }

  // ---- looking up one symbol ----

  /** All codes of the code-length code fit its one table. */
  lemma OneLevel(cl: seq<nat>)
    requires |cl| == 19 && (forall i | 0 <= i < 19 :: cl[i] <= 7) && Accept(BitsTree(cl))
    ensures BitsTree(cl).Ok() && BitsTree(cl).Job().g == BitsTree(cl).Job().l == Root(BitsTree(cl))
  {
    hide CountsOf, Order, Fill, Over, TotalUsed, Pos, Off, NextCode, CanonicalCode.End, Pow2;
    MaxUsed(cl);
    WidthOK(CountsOf(cl), 7);
  }

  lemma RootPoints(t: Tree, hp: seq<Huft>, root: nat, m: Marks, input: seq<byte>, bp: nat)
    requires t.Ok() && t.In(hp, root, m.hn, m.tabs)
    ensures Points(m, root, 0, Root(t), input, bp)
  {
    hide InfTrees.AllRight, HuftInvariant.Narrow, HuftInvariant.Tables, CountsOf, Order, Over, Fill, Width, Off, Pos,
      Peek;
    RootFits(t);
    PrefixNone(input, bp);
  }

  lemma PrefixNone(input: seq<byte>, bp: nat)
    ensures Prefix(input, bp, 0) == 0
  {
    ShlZero(15);
  }

  /** The entry says what the machine reads. */
  predicate LengthEntry(h: Huft, c: nat, bits: nat, bb: nat) {
    h.base == c < 19 && 1 <= h.bits == bits <= bb
  }

  lemma EntryIsLength(h: Huft, c: nat, bits: nat, bb: nat)
    requires LengthEntry(h, c, bits, bb)
    ensures h.base == c < 19 && 1 <= h.bits == bits <= bb
  {
  }

  lemma RepeatRange(c: nat)
    ensures RepeatBits(c) <= 7 && RepeatBase(c) >= 3
  {
  }

  /** What the table says at the bit position is the next code length symbol. */
  lemma LengthLookup(cl: seq<nat>, hp: seq<Huft>, tb: nat, m: Marks, input: seq<byte>, bp: nat)
    requires |cl| == 19 && (forall i | 0 <= i < 19 :: cl[i] <= 7) && Accept(BitsTree(cl))
    requires BitsTree(cl).In(hp, tb, m.hn, m.tabs)
    ensures tb + Peek(input, bp, Root(BitsTree(cl))) < |hp|
    ensures LengthEntry(hp[tb + Peek(input, bp, Root(BitsTree(cl)))], ReadSym(input, bp, cl).0,
                        ReadSym(input, bp, cl).1, Root(BitsTree(cl)))
  {
    hide Accept, Tree.In, Root, TreeLook, Peek, Points, EntryIs, Tree.Ok;
    var t := BitsTree(cl);
    OneLevel(cl);
    RootPoints(t, hp, tb, m, input, bp);
    LookEntry(t, hp, tb, m, tb, 0, Root(t), input, bp);
    var a := tb + Peek(input, bp, Root(t));
    EntryLength(cl, TreeLook(t, input, bp, 0, Root(t)), hp[a], a, m, input, bp);
  }

  lemma EntryLength(cl: seq<nat>, r: Looked, h: Huft, a: nat, m: Marks, input: seq<byte>, bp: nat)
    requires |cl| == 19 && Accept(BitsTree(cl)) && BitsTree(cl).Ok()
    requires BitsTree(cl).Job().g == BitsTree(cl).Job().l == Root(BitsTree(cl))
    requires r == TreeLook(BitsTree(cl), input, bp, 0, Root(BitsTree(cl)))
    requires EntryIs(BitsTree(cl), r, h, a, m, input, bp, 0, Root(BitsTree(cl)))
    ensures r.Leaf? && LengthEntry(h, LengthSym(BitsTree(cl).Job(), r.i), r.bits, Root(BitsTree(cl)))
  {
    hide Accept, Root, Points, Tree.Ok, Peek, Rev, Shl, LenAt, RankAt, CountsOf, Order, Off;
    var t := BitsTree(cl);
    if r.Leaf? {
      LengthSymBound(cl, r.i);
      LengthJob(cl);
    }
  }

  lemma LengthJob(cl: seq<nat>)
    requires |cl| == 19 && Accept(BitsTree(cl)) && BitsTree(cl).Ok()
    ensures BitsTree(cl).Job().s == 19 && forall i | 0 <= i < |BitsTree(cl).Job().v| :: BitsTree(cl).Job().v[i] < 19
  {
    hide Order, CountsOf, Off, Over, Fill, Width, Pos, TotalUsed, NextCode;
    forall i | 0 <= i < |BitsTree(cl).Job().v|
      ensures BitsTree(cl).Job().v[i] < 19
    {
      LengthSymBound(cl, i);
    }
  }

  /** The table lookup of DTREE. */
  lemma DTreeEntry(e: Env, table: nat, index: nat, blens: seq<nat>, bb: nat, tb: nat, g: Shadow, v: View)
    requires Fits(e, DTREE(table, index, blens, bb, tb), g, v)
    ensures tb + Peek(e.input, v.bp, bb) < |v.hufts|
    ensures LengthEntry(v.hufts[tb + Peek(e.input, v.bp, bb)], NextLength(e, g).0, NextLength(e, g).1, bb)
  {
    hide Fits, Accept, Tree.In, Root, Peek, LengthEntry, ReadSym, LitCount, DistCount, TableWF, Env.Ok, Reached;
    FitsFacts(e, DTREE(table, index, blens, bb, tb), g, v);
    DTreeFacts(e, table, index, blens, bb, tb, g, v);
    LengthLookup(Cl(g), v.hufts, tb, g.bits, e.input, v.bp);
  }

  // ---- the steps ----

  lemma DTreeStuck(e: Env, table: nat, index: nat, blens: seq<nat>, bb: nat, tb: nat, g: Shadow, v: View, limit: nat)
    requires limit <= |e.input| && index < |blens|
    requires v.bp + bb > 8 * limit
          || (NextLength(e, g).0 >= 16 && v.bp + NextLength(e, g).1 + RepeatBits(NextLength(e, g).0) > 8 * limit)
    requires Fits(e, DTREE(table, index, blens, bb, tb), g, v)
    ensures Stuck(e, g, limit)
  {
    hide Fits, Accept, Root, ReadSym, WF, Step, DTreeRel, LitCount, DistCount, RepeatBits, Env.Ok, Reached;
    FitsFacts(e, DTREE(table, index, blens, bb, tb), g, v);
    DTreeFacts(e, table, index, blens, bb, tb, g, v);
    DTreeSizes(index, blens, bb, tb, table, Cl(g), Got(g), v.hufts, g.bits);
    DTreeBits(index, blens, bb, tb, table, Cl(g), Got(g), v.hufts, g.bits);
    StepDTree(e, g, limit);
  }

  lemma DTreeBits(index: nat, blens: seq<nat>, bb: nat, tb: nat, table: nat, cl: seq<nat>, got: seq<nat>,
                  hufts: seq<Huft>, m: Marks)
    requires DTreeRel(index, blens, bb, tb, table, cl, got, hufts, m)
    ensures Accept(BitsTree(cl)) && bb == Root(BitsTree(cl))
  {
    hide Accept, Tree.In, LitCount, DistCount, Root;
  }

  /** The next lengths n times x are stored. */
  predicate Filled(blens: seq<nat>, was: seq<nat>, index: nat, n: nat, x: nat) {
    && index + n <= |blens| == |was| && blens[..index] == was[..index]
    && forall i | index <= i < index + n :: blens[i] == x
  }

  lemma FilledOnce(was: seq<nat>, index: nat, x: nat)
    requires index < |was|
    ensures Filled(was[index := x], was, index, 1, x)
  {
  }

  /** The loop of DTREE that stores a repeat. */
  method FillRun(was: seq<nat>, index: nat, n: nat, x: nat) returns (blens: seq<nat>)
    requires index + n <= |was|
    ensures Filled(blens, was, index, n, x)
  {
    blens := was;
    var i := index;
    while i < index + n
      invariant index <= i <= index + n && Filled(blens, was, index, i - index, x)
    {
      blens := blens[i := x];
      i := i + 1;
    }
  }

  lemma DTreeAdd(index: nat, was: seq<nat>, bb: nat, tb: nat, table: nat, cl: seq<nat>, got: seq<nat>, hufts: seq<Huft>,
                 m: Marks, blens: seq<nat>, n: nat, x: nat)
    requires Filled(blens, was, index, n, x) && DTreeRel(index, was, bb, tb, table, cl, got, hufts, m)
    ensures DTreeRel(index + n, blens, bb, tb, table, cl, got + Repeat(n, x), hufts, m)
  {
    hide Accept, Tree.In, LitCount, DistCount, Root;
    assert blens[..index + n] == got + Repeat(n, x);
  }

  /** DTREE reads one length. */
  lemma DTreeRead(e: Env, table: nat, index: nat, was: seq<nat>, bb: nat, tb: nat, g: Shadow, v: View, limit: nat,
                  blens: seq<nat>, v': View) returns (g': Shadow)
    requires limit <= |e.input| && index < |was| && v.bp + bb <= 8 * limit && NextLength(e, g).0 < 16
    requires Filled(blens, was, index, 1, NextLength(e, g).0)
    requires v'.bp == v.bp + NextLength(e, g).1 && v'.out == v.out && v'.last == v.last && v'.hufts == v.hufts
    requires Fits(e, DTREE(table, index, was, bb, tb), g, v)
    ensures g'.steps > g.steps
    ensures Fits(e, DTREE(table, index + 1, blens, bb, tb), g', v')
  {
    hide Run, WF, Step, Reached, Accept, Root, ReadSym, DTreeRel, DTreeWF, LitCount, DistCount, Env.Ok, Filled;
    FitsFacts(e, DTREE(table, index, was, bb, tb), g, v);
    DTreeFacts(e, table, index, was, bb, tb, g, v);
    DTreeSizes(index, was, bb, tb, table, Cl(g), Got(g), v.hufts, g.bits);
    DTreeBits(index, was, bb, tb, table, Cl(g), Got(g), v.hufts, g.bits);
    StepDTree(e, g, limit);
    var c := NextLength(e, g).0;
    DTreeAdd(index, was, bb, tb, table, Cl(g), Got(g), v.hufts, g.bits, blens, 1, c);
    RepeatOnce(c);
    var b := DTreeStep(e.input, limit, g.a, table, Cl(g), Got(g)).value;
    ReachedNext(e, g, v, limit, b);
    g' := Next(g, b);
    ReachedAlso(e, g', At(v, b), g', v');
  }

  lemma RepeatOnce(x: nat)
    ensures Repeat(1, x) == [x]
  {
    assert Repeat(0, x) == [];
  }

  /** The number of lengths a repeat stands for. */
  ghost function RepeatCount(e: Env, g: Shadow): nat {
    RepeatBase(NextLength(e, g).0) + Peek(e.input, g.a.bp + NextLength(e, g).1, RepeatBits(NextLength(e, g).0))
  }

  lemma DTreeRepeat(e: Env, table: nat, index: nat, was: seq<nat>, bb: nat, tb: nat, g: Shadow, v: View, limit: nat,
                    blens: seq<nat>, v': View) returns (g': Shadow)
    requires limit <= |e.input| && index < |was| && v.bp + bb <= 8 * limit && NextLength(e, g).0 >= 16
    requires v.bp + NextLength(e, g).1 + RepeatBits(NextLength(e, g).0) <= 8 * limit
    requires index + RepeatCount(e, g) > |was| || (NextLength(e, g).0 == 16 && index < 1)
          || Filled(blens, was, index, RepeatCount(e, g),
                    if NextLength(e, g).0 == 16 && index > 0 then was[index - 1] else 0)
    requires v'.bp == v.bp + NextLength(e, g).1 + RepeatBits(NextLength(e, g).0)
    requires v'.out == v.out && v'.last == v.last && v'.hufts == v.hufts
    requires Fits(e, DTREE(table, index, was, bb, tb), g, v)
    ensures g'.steps > g.steps
    ensures if index + RepeatCount(e, g) > |was| || (NextLength(e, g).0 == 16 && index < 1)
            then Fits(e, BAD, g', v') && Stuck(e, g', limit)
            else Fits(e, DTREE(table, index + RepeatCount(e, g), blens, bb, tb), g', v')
  {
    hide Run, WF, Step, Reached, Accept, Root, ReadSym, DTreeRel, DTreeWF, LitCount, DistCount, Env.Ok, Filled,
      RepeatBits, RepeatBase, Peek;
    FitsFacts(e, DTREE(table, index, was, bb, tb), g, v);
    DTreeFacts(e, table, index, was, bb, tb, g, v);
    DTreeSizes(index, was, bb, tb, table, Cl(g), Got(g), v.hufts, g.bits);
    DTreeBits(index, was, bb, tb, table, Cl(g), Got(g), v.hufts, g.bits);
    StepDTree(e, g, limit);
    var c, n := NextLength(e, g).0, RepeatCount(e, g);
    if !(index + n > |was| || (c == 16 && index < 1)) {
      DTreeAdd(index, was, bb, tb, table, Cl(g), Got(g), v.hufts, g.bits, blens, n,
               if c == 16 && index > 0 then was[index - 1] else 0);
    }
    var b := DTreeStep(e.input, limit, g.a, table, Cl(g), Got(g)).value;
    ReachedNext(e, g, v, limit, b);
    g' := Next(g, b);
    ReachedAlso(e, g', At(v, b), g', v');
    EndStuck(e, g', limit);
  }

  // ---- the trees ----

  /** The lengths of the two trees. */
  function LitLens(table: nat, blens: seq<nat>): seq<nat>
    requires LitCount(table) <= |blens|
  {
    blens[..LitCount(table)]
  }

  function DistLens(table: nat, blens: seq<nat>): seq<nat>
    requires LitCount(table) <= |blens|
  {
    blens[LitCount(table)..]
  }

  /** The tables that inflate_trees_dynamic leaves. */
  ghost predicate DynBuilt(ll: seq<nat>, dl: seq<nat>, hufts: seq<Huft>, cs: CodesState, lit: Marks, dist: Marks) {
    DynAccept(ll, dl) ==>
      && LitTree(ll).In(hufts, cs.ltree, lit.hn, lit.tabs) && cs.lbits == Width(CountsOf(ll), 9)
      && (!DistTree(dl).Empty() ==>
            DistTree(dl).In(hufts, cs.dtree, dist.hn, dist.tabs) && cs.dbits == Width(CountsOf(dl), 6))
  }

  /** The lookup of an accepted tree is no wider than wanted. */
  lemma AcceptNarrow(t: Tree)
    requires Accept(t) && (t == LitTree(t.b) || t == DistTree(t.b) || (t == BitsTree(t.b) && |t.b| == 19))
    ensures t.Ok() && Root(t) <= t.want <= 9
  {
    hide TotalUsed, CountsOf, Over, CPLENS, CPLEXT, CPDIST, CPDEXT, Off, Pos, NextCode, Tree.Job, Order;
    TableLengths();
    AcceptWidth(t);
  }

  lemma TableLengths()
    ensures |CPLENS| == |CPLEXT| == 31 && |CPDIST| == |CPDEXT| == 30
    ensures Pow2(10) == 1024 && Pow2(8) == 256 && Pow2(7) == 128
  {
  }

  lemma DynRel(ll: seq<nat>, dl: seq<nat>, hufts: seq<Huft>, cs: CodesState, lit: Marks, dist: Marks)
    requires DynAccept(ll, dl) && DynBuilt(ll, dl, hufts, cs, lit, dist)
    ensures TreesRel(cs, LitTree(ll), if DistTree(dl).Empty() then None else Some(DistTree(dl)), hufts, lit, dist)
  {
    hide Accept, Width, CountsOf, Root, Tree.In, Tree.Empty, TreesWF, TotalUsed;
    DynWF(ll, dl);
    AcceptNarrow(LitTree(ll));
    AcceptRoot(LitTree(ll));
    if !DistTree(dl).Empty() {
      AcceptNarrow(DistTree(dl));
      AcceptRoot(DistTree(dl));
    }
  }

  /** DTREE builds the trees once all lengths are read. */
  lemma DTreeDone(e: Env, table: nat, blens: seq<nat>, bb: nat, tb: nat, g: Shadow, v: View, limit: nat,
                  hufts: seq<Huft>, cs: CodesState, lit: Marks, dist: Marks) returns (g': Shadow)
    requires limit <= |e.input| && LitCount(table) <= |blens| && cs.part == START && !cs.fixed
    requires DynBuilt(LitLens(table, blens), DistLens(table, blens), hufts, cs, lit, dist)
    requires Fits(e, DTREE(table, |blens|, blens, bb, tb), g, v)
    ensures g'.steps > g.steps
    ensures if DynAccept(LitLens(table, blens), DistLens(table, blens)) then Fits(e, CODES(cs), g', v.(hufts := hufts))
            else Fits(e, BAD, g', v.(hufts := hufts)) && Stuck(e, g', limit)
  {
    hide Run, WF, Step, Reached, Accept, DTreeRel, DTreeWF, LitCount, DistCount, Env.Ok, DynAccept, DynBuilt,
      Tree.Empty, TreesRel, ReadLength;
    FitsFacts(e, DTREE(table, |blens|, blens, bb, tb), g, v);
    DTreeFacts(e, table, |blens|, blens, bb, tb, g, v);
    DTreeSizes(|blens|, blens, bb, tb, table, Cl(g), Got(g), v.hufts, g.bits);
    assert blens[..|blens|] == blens;
    StepDTree(e, g, limit);
    var ll, dl := LitLens(table, blens), DistLens(table, blens);
    var b := DTreeStep(e.input, limit, g.a, table, Cl(g), Got(g)).value;
    ReachedNext(e, g, v, limit, b);
    g' := Next(g, b).(lit := lit, dist := dist);
    ReachedAlso(e, Next(g, b), At(v, b), g', v.(hufts := hufts));
    EndStuck(e, g', limit);
    if DynAccept(ll, dl) {
      DynRel(ll, dl, hufts, cs, lit, dist);
    }
  }

  lemma DynSizes(table: nat, blens: seq<nat>)
    requires |blens| == LitCount(table) + DistCount(table) && TableWF(table)
    requires forall i | 0 <= i < |blens| :: blens[i] <= 15
    ensures LitCount(table) <= |blens|
    ensures 257 <= |LitLens(table, blens)| <= 286 && 1 <= |DistLens(table, blens)| <= 30
    ensures Lengths(LitLens(table, blens)) && Lengths(DistLens(table, blens))
  {
  }

  lemma DynBuiltIs(ll: seq<nat>, dl: seq<nat>, hufts: seq<Huft>, cs: CodesState, td: Option<nat>, lit: Marks,
                   dist: Marks, ok: bool)
    requires ok <==> DynAccept(ll, dl)
    requires ok ==> LitTree(ll).In(hufts, cs.ltree, lit.hn, lit.tabs) && cs.lbits == Width(CountsOf(ll), 9)
    requires ok ==> (td == None <==> DistTree(dl).Empty())
    requires ok && td.Some? ==>
      cs.dtree == td.value && DistTree(dl).In(hufts, td.value, dist.hn, dist.tabs) && cs.dbits == Width(CountsOf(dl), 6)
    ensures DynBuilt(ll, dl, hufts, cs, lit, dist)
  {
    hide DynAccept, Tree.In, CountsOf, Width, Tree.Empty;
  }

  lemma RepeatCountIs(e: Env, g: Shadow, v: View, n: nat, x: nat)
    requires g.a.bp == v.bp && x == Peek(e.input, v.bp + NextLength(e, g).1, RepeatBits(NextLength(e, g).0))
    requires n == RepeatBase(NextLength(e, g).0) + x
    ensures n == RepeatCount(e, g)
  {
    hide NextLength, Peek, RepeatBits, RepeatBase;
  }
}
