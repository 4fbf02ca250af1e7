/** How each step of infcodes.c keeps standing for the abstract machine, on the values of the state. */
module CodesFits {
  import opened Arith
  import opened HuftSpec
  import opened CodeLengths
  import opened InflateTrees
  import opened FixedTrees
  import opened Stream
  import opened OutputWindow
  import opened InflateSpec
  import opened InflateState
  import opened InflateFits
  import LengthFits

  /** The trees and the mode of the block being decoded. */
  ghost function Lt(g: Shadow): Tree { if g.a.mode.InCodes? then g.a.mode.lt else LitTree([]) }

  ghost function Dt(g: Shadow): Option<Tree> { if g.a.mode.InCodes? then g.a.mode.dt else None }

  ghost function Cm(g: Shadow): CodeMode { if g.a.mode.InCodes? then g.a.mode.cm else BadCode }

  /** Where the tables of the block's trees stand. */
  function Mem(cs: CodesState, fixed: seq<Huft>, hufts: seq<Huft>): seq<Huft> { if cs.fixed then fixed else hufts }

  lemma CodesFacts(e: Env, cs: CodesState, g: Shadow, v: View)
    requires Fits(e, CODES(cs), g, v)
    ensures |e.base| > 0 && WF(g.a) && Reached(e, g, v)
    ensures g.a.bp == v.bp && g.a.out == v.out && g.a.last == v.last
    ensures g.a.mode == InCodes(Lt(g), Dt(g), Cm(g)) && CodesWF(Lt(g), Dt(g), Cm(g), v.bp)
    ensures TreesRel(cs, Lt(g), Dt(g), Mem(cs, e.fixed, v.hufts), g.lit, g.dist)
    ensures PartRel(cs.part, Cm(g), g.lit, g.dist, e.input, v.bp)
  {
    hide Run, Env.Ok, CodesWF, TreesRel, PartRel;
  }

  lemma StepCodes(e: Env, g: Shadow, limit: nat)
    requires |e.base| > 0 && limit <= |e.input| && WF(g.a) && g.a.mode == InCodes(Lt(g), Dt(g), Cm(g))
    ensures CodesWF(Lt(g), Dt(g), Cm(g), g.a.bp)
    ensures Step(e.input, e.base, limit, g.a) == CodesStep(e.input, e.base, limit, g.a, Lt(g), Dt(g), Cm(g))
  {
    hide CodesWF, CodesStep;
  }

  lemma FitsCodes(e: Env, cs: CodesState, g: Shadow, v: View, lt: Tree, dt: Option<Tree>, cm: CodeMode)
    requires e.Ok() && Reached(e, g, v) && g.a.mode == InCodes(lt, dt, cm)
    requires TreesRel(cs, lt, dt, Mem(cs, e.fixed, v.hufts), g.lit, g.dist)
    requires PartRel(cs.part, cm, g.lit, g.dist, e.input, v.bp)
    ensures Fits(e, CODES(cs), g, v)
  {
    hide Run, Env.Ok, WF, Reached, PartRel, TreesRel;
  }

  /** A step from codes to codes. */
  lemma CodesNext(e: Env, cs: CodesState, g: Shadow, v: View, limit: nat, b: AState, p: CodesPart, cm: CodeMode,
                  v': View)
    requires limit <= |e.input| && b.mode == InCodes(Lt(g), Dt(g), cm)
    requires v'.bp == b.bp && v'.out == b.out && v'.last == b.last && v'.hufts == v.hufts
    requires PartRel(p, cm, g.lit, g.dist, e.input, b.bp)
    requires |e.base| > 0 && WF(g.a) && Step(e.input, e.base, limit, g.a) == Some(b)
    requires Fits(e, CODES(cs), g, v)
    ensures Fits(e, CODES(cs.(part := p)), Next(g, b), v')
  {
    hide Fits, Env.Ok, WF, Step, Reached, PartRel, CodesWF, TreesRel, BlockRel;
    FitsFacts(e, CODES(cs), g, v);
    CodesFacts(e, cs, g, v);
    ReachedNext(e, g, v, limit, b);
    ReachedAlso(e, Next(g, b), At(v, b), Next(g, b), v');
    TreesPart(cs, p, Lt(g), Dt(g), Mem(cs, e.fixed, v.hufts), g.lit, g.dist);
    FitsCodes(e, cs.(part := p), Next(g, b), v', Lt(g), Dt(g), cm);
  }

  lemma TreesPart(cs: CodesState, p: CodesPart, lt: Tree, dt: Option<Tree>, mem: seq<Huft>, lit: Marks, dist: Marks)
    requires TreesRel(cs, lt, dt, mem, lit, dist)
    ensures TreesRel(cs.(part := p), lt, dt, mem, lit, dist)
  {
    hide TreesWF, Root, Tree.In;
  }

  lemma TreesLit(cs: CodesState, lt: Tree, dt: Option<Tree>, mem: seq<Huft>, lit: Marks, dist: Marks)
    requires TreesRel(cs, lt, dt, mem, lit, dist)
    ensures TreesWF(lt, dt) && lt.Ok() && cs.lbits == Root(lt) <= 9 && lt.In(mem, cs.ltree, lit.hn, lit.tabs)
  {
    hide Root, Tree.In, Tree.Ok;
  }

  lemma TreesDist(cs: CodesState, lt: Tree, dt: Option<Tree>, mem: seq<Huft>, lit: Marks, dist: Marks)
    requires dt.Some? && TreesRel(cs, lt, dt, mem, lit, dist)
    ensures TreesWF(lt, dt) && dt.value.Ok() && cs.dbits == Root(dt.value) <= 9
    ensures dt.value.In(mem, cs.dtree, dist.hn, dist.tabs)
  {
    hide Root, Tree.In, Tree.Ok;
  }

  /** How many bits of the code being looked up are consumed already. */
  ghost function Consumed(g: Shadow): nat {
    if Cm(g).Len? || Cm(g).Dist? then Cm(g).w else 0
  }

  lemma CodesBuffer(cs: CodesState, bitk: nat, ahead: nat)
    ensures BufferOK(CODES(cs), bitk, ahead)
  {
  }

  // ---- START ----

  function StartPart(cs: CodesState): CodesPart { LEN(cs.ltree, cs.lbits) }

  lemma StartPartIs(cs: CodesState)
    ensures StartPart(cs) == LEN(cs.ltree, cs.lbits)
  {
  }

  lemma StartFits(e: Env, cs: CodesState, g: Shadow, v: View, limit: nat) returns (g': Shadow)
    requires limit <= |e.input| && cs.part == START && Fits(e, CODES(cs), g, v)
    ensures g'.steps > g.steps && Consumed(g') == 0
    ensures Fits(e, CODES(cs.(part := StartPart(cs))), g', v)
  {
    hide Fits, TreesRel, Root, Tree.In, Tree.Ok, Step, WF, Points, CodesWF, Reached;
    CodesFacts(e, cs, g, v);
    StepCodes(e, g, limit);
    TreesLit(cs, Lt(g), Dt(g), Mem(cs, e.fixed, v.hufts), g.lit, g.dist);
    LengthFits.RootPoints(Lt(g), Mem(cs, e.fixed, v.hufts), cs.ltree, g.lit, e.input, v.bp);
    var b := CodesStep(e.input, e.base, limit, g.a, Lt(g), Dt(g), Cm(g)).value;
    CodesNext(e, cs, g, v, limit, b, StartPart(cs), Len(0, Root(Lt(g))), v);
    g' := Next(g, b);
  }

  // ---- LEN and DIST ----

  /** What LEN does with the entry found at index a. */
  function LenPart(h: Huft, a: nat): CodesPart {
    if h.exop == 0 then LIT(h.base % 256)
    else if IsExtra(h.exop) then LENEXT(h.base, h.exop % 16)
    else if !IsFinal(h.exop) then LEN(a + h.base, h.exop)
    else if IsEnd(h.exop) then WASH
    else BADCODE
  }

  /** What DIST does with the entry found at index a. */
  function DistPart(h: Huft, a: nat, len: nat): CodesPart {
    if IsExtra(h.exop) then DISTEXT(len, h.base, h.exop % 16)
    else if !IsFinal(h.exop) then DIST(len, a + h.base, h.exop)
    else BADCODE
  }

  lemma LenPartIs(h: Huft, a: nat)
    ensures LenPart(h, a).LEN? <==> h.exop != 0 && !IsExtra(h.exop) && !IsFinal(h.exop)
    ensures LenPart(h, a).LEN? ==> LenPart(h, a) == LEN(a + h.base, h.exop)
    ensures LenPart(h, a).LIT? <==> h.exop == 0
    ensures LenPart(h, a).LIT? ==> LenPart(h, a) == LIT(h.base % 256)
    ensures LenPart(h, a).LENEXT? <==> h.exop != 0 && IsExtra(h.exop)
    ensures LenPart(h, a).LENEXT? ==> LenPart(h, a) == LENEXT(h.base, h.exop % 16)
    ensures LenPart(h, a).WASH? <==> h.exop != 0 && !IsExtra(h.exop) && IsFinal(h.exop) && IsEnd(h.exop)
    ensures LenPart(h, a).BADCODE? <==> h.exop != 0 && !IsExtra(h.exop) && IsFinal(h.exop) && !IsEnd(h.exop)
  {
  }

  lemma DistPartIs(h: Huft, a: nat, len: nat)
    ensures DistPart(h, a, len).DIST? <==> !IsExtra(h.exop) && !IsFinal(h.exop)
    ensures DistPart(h, a, len).DIST? ==> DistPart(h, a, len) == DIST(len, a + h.base, h.exop)
    ensures DistPart(h, a, len).DISTEXT? <==> IsExtra(h.exop)
    ensures DistPart(h, a, len).DISTEXT? ==> DistPart(h, a, len) == DISTEXT(len, h.base, h.exop % 16)
    ensures DistPart(h, a, len).BADCODE? <==> !IsExtra(h.exop) && IsFinal(h.exop)
  {
  }

  lemma NotEnd(h: Huft, a: nat, len: nat)
    ensures !LenPart(h, a).END? && !DistPart(h, a, len).END? && !DistPart(h, a, len).WASH?
  {
  }

  /** Is the entry's code of 1 to need bits? */
  predicate EntryOK(h: Huft, need: nat) { 1 <= h.bits <= need }

  lemma EntryRange(h: Huft, need: nat)
    requires EntryOK(h, need)
    ensures 1 <= h.bits <= need
  {
  }

  lemma LenEntry(e: Env, cs: CodesState, tree: nat, need: nat, g: Shadow, v: View)
    requires cs.part == LEN(tree, need) && Fits(e, CODES(cs), g, v)
    ensures 1 <= need <= 9 && Consumed(g) + need <= 15
    ensures tree + Peek(e.input, v.bp, need) < |Mem(cs, e.fixed, v.hufts)|
    ensures EntryOK(Mem(cs, e.fixed, v.hufts)[tree + Peek(e.input, v.bp, need)], need)
  {
    hide Fits, TreesRel, Root, Tree.In, Tree.Ok, WF, CodesWF, Reached, TreeLook, Peek;
    CodesFacts(e, cs, g, v);
    TreesLit(cs, Lt(g), Dt(g), Mem(cs, e.fixed, v.hufts), g.lit, g.dist);
    LookEntry(Lt(g), Mem(cs, e.fixed, v.hufts), cs.ltree, g.lit, tree, Cm(g).w, need, e.input, v.bp);
  }

  lemma LenStuck(e: Env, cs: CodesState, tree: nat, need: nat, g: Shadow, v: View, limit: nat)
    requires limit <= |e.input| && cs.part == LEN(tree, need) && v.bp + need > 8 * limit && Fits(e, CODES(cs), g, v)
    ensures Stuck(e, g, limit)
  {
    hide Fits, TreesRel, Root, Tree.In, Tree.Ok, Step, WF, CodesWF, Reached, TreeLook, Points;
    CodesFacts(e, cs, g, v);
    StepCodes(e, g, limit);
  }

  /** What LEN and DIST make of an entry for a symbol. */
  lemma OpPart(m: Sym, h: Huft, a: nat, len: nat)
    requires OpIs(m, h)
    ensures m.Literal? ==> LenPart(h, a) == LIT(m.c)
    ensures m.EndOfBlock? ==> LenPart(h, a) == WASH
    ensures m.Extra? ==> LenPart(h, a) == LENEXT(m.base, m.get) && DistPart(h, a, len) == DISTEXT(len, m.base, m.get)
    ensures m.Invalid? ==> LenPart(h, a) == BADCODE && DistPart(h, a, len) == BADCODE
  {
  }

  lemma LenLeaf(lt: Tree, dt: Option<Tree>, r: Looked, h: Huft, a: nat, lit: Marks, dist: Marks, input: seq<byte>,
                bp: nat, w: nat, need: nat)
    requires TreesWF(lt, dt) && lt.Ok() && r.Leaf? && EntryIs(lt, r, h, a, lit, input, bp, w, need)
    ensures h.bits == r.bits && !LenPart(h, a).LEN?
    ensures PartRel(LenPart(h, a), AfterLen(TreeSym(lt, r.i)), lit, dist, input, bp + r.bits)
  {
    hide TreesWF, Tree.Ok, TreeSym, Points, LeafExop, LeafBase, LenPart, DistPart, OpIs;
    LitOp(lt, dt, r.i, h);
    OpPart(TreeSym(lt, r.i), h, a, 0);
  }

  lemma LenDeeper(lt: Tree, r: Looked, h: Huft, a: nat, lit: Marks, dist: Marks, input: seq<byte>, bp: nat, w: nat,
                  need: nat)
    requires lt.Ok() && r.Deeper? && EntryIs(lt, r, h, a, lit, input, bp, w, need)
    ensures h.bits == need && PartRel(LenPart(h, a), Len(w + need, r.need), lit, dist, input, bp + need)
  {
    hide Tree.Ok, TreeSym, Points, LeafExop, LeafBase;
  }

  lemma LenFits(e: Env, cs: CodesState, tree: nat, need: nat, g: Shadow, v: View, limit: nat, a: nat, h: Huft, v': View)
    returns (g': Shadow)
    requires limit <= |e.input| && cs.part == LEN(tree, need) && v.bp + need <= 8 * limit
    requires a == tree + Peek(e.input, v.bp, need) < |Mem(cs, e.fixed, v.hufts)| && h == Mem(cs, e.fixed, v.hufts)[a]
    requires v'.bp == v.bp + h.bits && v'.out == v.out && v'.last == v.last && v'.hufts == v.hufts
    requires Fits(e, CODES(cs), g, v)
    ensures g'.steps > g.steps
    ensures Fits(e, CODES(cs.(part := LenPart(h, a))), g', v')
    ensures LenPart(h, a) == BADCODE ==> Stuck(e, g', limit)
    ensures LenPart(h, a).LEN? ==> Consumed(g') == Consumed(g) + h.bits
  {
    hide Fits, TreesRel, Root, Tree.In, Tree.Ok, Step, WF, CodesWF, Reached, TreeLook, Peek, Points, TreesWF, EntryIs,
      TreeSym, PartRel, LenPart;
    CodesFacts(e, cs, g, v);
    LenModeIs(cs, tree, need, Cm(g), g.lit, g.dist, e.input, v.bp, Lt(g), Dt(g));
    StepCodes(e, g, limit);
    TreesLit(cs, Lt(g), Dt(g), Mem(cs, e.fixed, v.hufts), g.lit, g.dist);
    var w := Cm(g).w;
    LookEntry(Lt(g), Mem(cs, e.fixed, v.hufts), cs.ltree, g.lit, tree, w, need, e.input, v.bp);
    var r := TreeLook(Lt(g), e.input, v.bp, w, need);
    if r.Leaf? {
      LenLeaf(Lt(g), Dt(g), r, h, a, g.lit, g.dist, e.input, v.bp, w, need);
    } else {
      LenDeeper(Lt(g), r, h, a, g.lit, g.dist, e.input, v.bp, w, need);
    }
    var b := LenStep(e.input, limit, g.a, Lt(g), Dt(g), w, need).value;
    CodesNext(e, cs, g, v, limit, b, LenPart(h, a),
              if r.Leaf? then AfterLen(TreeSym(Lt(g), r.i)) else Len(w + need, r.need), v');
    g' := Next(g, b);
    BadStuck(e, cs.(part := LenPart(h, a)), g', v', limit);
  }

  lemma LenModeIs(cs: CodesState, tree: nat, need: nat, cm: CodeMode, lit: Marks, dist: Marks, input: seq<byte>,
                  bp: nat, lt: Tree, dt: Option<Tree>)
    requires cs.part == LEN(tree, need) && PartRel(cs.part, cm, lit, dist, input, bp) && CodesWF(lt, dt, cm, bp)
    ensures cm == Len(cm.w, need) && cm.w <= bp && cm.w + need <= 15 && Points(lit, tree, cm.w, need, input, bp)
  {
    hide TreesWF, Points;
  }

  /** BADCODE is the end. */
  lemma BadStuck(e: Env, cs: CodesState, g: Shadow, v: View, limit: nat)
    requires limit <= |e.input| && Fits(e, CODES(cs), g, v)
    ensures cs.part == BADCODE ==> Stuck(e, g, limit)
  {
    hide Fits, TreesRel, WF, CodesWF, Reached, Points, Stuck;
    CodesFacts(e, cs, g, v);
    EndStuck(e, g, limit);
  }

  /** A distance is only ever looked up when there is a distance tree. */
  lemma DistModeIs(cs: CodesState, len: nat, tree: nat, need: nat, cm: CodeMode, lit: Marks, dist: Marks,
                   input: seq<byte>, bp: nat, lt: Tree, dt: Option<Tree>)
    requires cs.part == DIST(len, tree, need) && PartRel(cs.part, cm, lit, dist, input, bp) && CodesWF(lt, dt, cm, bp)
    ensures cm == Dist(len, cm.w, need) && cm.w <= bp && cm.w + need <= 15 && Points(dist, tree, cm.w, need, input, bp)
    ensures dt.Some?
  {
    hide TreesWF, Points;
  }

  lemma DistEntry(e: Env, cs: CodesState, len: nat, tree: nat, need: nat, g: Shadow, v: View)
    requires cs.part == DIST(len, tree, need) && Fits(e, CODES(cs), g, v)
    ensures 1 <= need <= 9 && Consumed(g) + need <= 15
    ensures tree + Peek(e.input, v.bp, need) < |Mem(cs, e.fixed, v.hufts)|
    ensures EntryOK(Mem(cs, e.fixed, v.hufts)[tree + Peek(e.input, v.bp, need)], need)
  {
    hide Fits, TreesRel, Root, Tree.In, Tree.Ok, WF, CodesWF, Reached, TreeLook, Peek, PartRel;
    CodesFacts(e, cs, g, v);
    DistModeIs(cs, len, tree, need, Cm(g), g.lit, g.dist, e.input, v.bp, Lt(g), Dt(g));
    TreesDist(cs, Lt(g), Dt(g), Mem(cs, e.fixed, v.hufts), g.lit, g.dist);
    LookEntry(Dt(g).value, Mem(cs, e.fixed, v.hufts), cs.dtree, g.dist, tree, Cm(g).w, need, e.input, v.bp);
  }

  lemma DistStuck(e: Env, cs: CodesState, len: nat, tree: nat, need: nat, g: Shadow, v: View, limit: nat)
    requires limit <= |e.input| && cs.part == DIST(len, tree, need) && v.bp + need > 8 * limit
    requires Fits(e, CODES(cs), g, v)
    ensures Stuck(e, g, limit)
  {
    hide Fits, TreesRel, Root, Tree.In, Tree.Ok, Step, WF, CodesWF, Reached, TreeLook, Points;
    CodesFacts(e, cs, g, v);
    StepCodes(e, g, limit);
  }

  lemma DistLeaf(lt: Tree, dt: Option<Tree>, len: nat, r: Looked, h: Huft, a: nat, lit: Marks, dist: Marks,
                 input: seq<byte>, bp: nat, w: nat, need: nat)
    requires dt.Some? && dt.value.Ok() && r.Leaf? && TreesWF(lt, dt)
    requires EntryIs(dt.value, r, h, a, dist, input, bp, w, need)
    ensures h.bits == r.bits && !DistPart(h, a, len).DIST?
    ensures PartRel(DistPart(h, a, len), AfterDist(TreeSym(dt.value, r.i), len), lit, dist, input, bp + r.bits)
  {
    hide TreesWF, Tree.Ok, TreeSym, Points, LeafExop, LeafBase, LenPart, DistPart, OpIs;
    DistOp(lt, dt, r.i, h);
    OpPart(TreeSym(dt.value, r.i), h, a, len);
  }

  lemma DistDeeper(t: Tree, len: nat, r: Looked, h: Huft, a: nat, lit: Marks, dist: Marks, input: seq<byte>, bp: nat,
                   w: nat, need: nat)
    requires t.Ok() && r.Deeper? && EntryIs(t, r, h, a, dist, input, bp, w, need)
    ensures h.bits == need && PartRel(DistPart(h, a, len), Dist(len, w + need, r.need), lit, dist, input, bp + need)
  {
    hide Tree.Ok, TreeSym, Points, LeafExop, LeafBase;
  }

  lemma DistFits(e: Env, cs: CodesState, len: nat, tree: nat, need: nat, g: Shadow, v: View, limit: nat, a: nat,
                 h: Huft, v': View)
    returns (g': Shadow)
    requires limit <= |e.input| && cs.part == DIST(len, tree, need) && v.bp + need <= 8 * limit
    requires a == tree + Peek(e.input, v.bp, need) < |Mem(cs, e.fixed, v.hufts)| && h == Mem(cs, e.fixed, v.hufts)[a]
    requires v'.bp == v.bp + h.bits && v'.out == v.out && v'.last == v.last && v'.hufts == v.hufts
    requires Fits(e, CODES(cs), g, v)
    ensures g'.steps > g.steps
    ensures Fits(e, CODES(cs.(part := DistPart(h, a, len))), g', v')
    ensures DistPart(h, a, len) == BADCODE ==> Stuck(e, g', limit)
    ensures DistPart(h, a, len).DIST? ==> Consumed(g') == Consumed(g) + h.bits
  {
    hide Fits, TreesRel, Root, Tree.In, Tree.Ok, Step, WF, CodesWF, Reached, TreeLook, Peek, Points, TreesWF, EntryIs,
      TreeSym, PartRel, DistPart;
    CodesFacts(e, cs, g, v);
    DistModeIs(cs, len, tree, need, Cm(g), g.lit, g.dist, e.input, v.bp, Lt(g), Dt(g));
    StepCodes(e, g, limit);
    TreesDist(cs, Lt(g), Dt(g), Mem(cs, e.fixed, v.hufts), g.lit, g.dist);
    var w, t := Cm(g).w, Dt(g).value;
    LookEntry(t, Mem(cs, e.fixed, v.hufts), cs.dtree, g.dist, tree, w, need, e.input, v.bp);
    var r := TreeLook(t, e.input, v.bp, w, need);
    if r.Leaf? {
      DistLeaf(Lt(g), Dt(g), len, r, h, a, g.lit, g.dist, e.input, v.bp, w, need);
    } else {
      DistDeeper(t, len, r, h, a, g.lit, g.dist, e.input, v.bp, w, need);
    }
    var b := DistStep(e.input, limit, g.a, Lt(g), Dt(g), len, w, need).value;
    CodesNext(e, cs, g, v, limit, b, DistPart(h, a, len),
              if r.Leaf? then AfterDist(TreeSym(t, r.i), len) else Dist(len, w + need, r.need), v');
    g' := Next(g, b);
    BadStuck(e, cs.(part := DistPart(h, a, len)), g', v', limit);
  }

  // ---- extra bits ----

  /** How many extra bits a mode wants. */
  function ExtraBits(p: CodesPart): nat {
    match p
    case LENEXT(_, get) => get
    case DISTEXT(_, _, get) => get
    case _ => 0
  }

  lemma ExtraBitsIs(cs: CodesState)
    ensures cs.part.LENEXT? ==> ExtraBits(cs.part) == cs.part.get
    ensures cs.part.DISTEXT? ==> ExtraBits(cs.part) == cs.part.get
  {
  }

  /** What LENEXT and DISTEXT do with the extra bits x. */
  function ExtraPart(cs: CodesState, x: nat): CodesPart {
    match cs.part
    case LENEXT(len, get) => DIST(len + x, cs.dtree, cs.dbits)
    case DISTEXT(len, dist, get) => COPY(len, dist + x)
    case _ => cs.part
  }

  lemma ExtraBound(e: Env, cs: CodesState, g: Shadow, v: View)
    requires Fits(e, CODES(cs), g, v)
    ensures ExtraBits(cs.part) <= 13
    ensures cs.part.LENEXT? ==> ExtraBits(cs.part) <= 5
  {
    hide Fits, TreesRel, WF, Reached, Points, TreesWF, Pow2;
    CodesFacts(e, cs, g, v);
  }

  lemma ExtraStuck(e: Env, cs: CodesState, g: Shadow, v: View, limit: nat)
    requires limit <= |e.input| && (cs.part.LENEXT? || cs.part.DISTEXT?) && v.bp + ExtraBits(cs.part) > 8 * limit
    requires Fits(e, CODES(cs), g, v)
    ensures Stuck(e, g, limit)
  {
    hide Fits, TreesRel, Root, Tree.In, Tree.Ok, Step, WF, CodesWF, Reached, TreeLook, Points;
    CodesFacts(e, cs, g, v);
    StepCodes(e, g, limit);
  }

  lemma LenExtFits(e: Env, cs: CodesState, g: Shadow, v: View, limit: nat, v': View) returns (g': Shadow)
    requires limit <= |e.input| && cs.part.LENEXT? && v.bp + ExtraBits(cs.part) <= 8 * limit
    requires v'.bp == v.bp + ExtraBits(cs.part) && v'.out == v.out && v'.last == v.last && v'.hufts == v.hufts
    requires Fits(e, CODES(cs), g, v)
    ensures g'.steps > g.steps
    ensures Fits(e, CODES(cs.(part := ExtraPart(cs, Peek(e.input, v.bp, ExtraBits(cs.part))))), g', v')
    ensures Consumed(g') == 0
  {
    hide Fits, TreesRel, Root, Tree.In, Tree.Ok, Step, WF, CodesWF, Reached, Points, Peek;
    CodesFacts(e, cs, g, v);
    ExtraTree(cs, Cm(g), Lt(g), Dt(g), g.lit, g.dist, e.input, v.bp);
    StepCodes(e, g, limit);
    TreesDist(cs, Lt(g), Dt(g), Mem(cs, e.fixed, v.hufts), g.lit, g.dist);
    LengthFits.RootPoints(Dt(g).value, Mem(cs, e.fixed, v.hufts), cs.dtree, g.dist, e.input, v'.bp);
    var b := CodesStep(e.input, e.base, limit, g.a, Lt(g), Dt(g), Cm(g)).value;
    var x := Peek(e.input, v.bp, ExtraBits(cs.part));
    CodesNext(e, cs, g, v, limit, b, ExtraPart(cs, x), b.mode.cm, v');
    g' := Next(g, b);
  }

  lemma ExtraTree(cs: CodesState, cm: CodeMode, lt: Tree, dt: Option<Tree>, lit: Marks, dist: Marks, input: seq<byte>,
                  bp: nat)
    requires cs.part.LENEXT? && PartRel(cs.part, cm, lit, dist, input, bp) && CodesWF(lt, dt, cm, bp)
    ensures dt.Some?
  {
    hide TreesWF, Points;
  }

  lemma DistExtFits(e: Env, cs: CodesState, g: Shadow, v: View, limit: nat, v': View) returns (g': Shadow)
    requires limit <= |e.input| && cs.part.DISTEXT? && v.bp + ExtraBits(cs.part) <= 8 * limit
    requires v'.bp == v.bp + ExtraBits(cs.part) && v'.out == v.out && v'.last == v.last && v'.hufts == v.hufts
    requires Fits(e, CODES(cs), g, v)
    ensures g'.steps > g.steps
    ensures Fits(e, CODES(cs.(part := ExtraPart(cs, Peek(e.input, v.bp, ExtraBits(cs.part))))), g', v')
  {
    hide Fits, TreesRel, Root, Tree.In, Tree.Ok, Step, WF, CodesWF, Reached, Points, Peek;
    CodesFacts(e, cs, g, v);
    StepCodes(e, g, limit);
    var b := CodesStep(e.input, e.base, limit, g.a, Lt(g), Dt(g), Cm(g)).value;
    var x := Peek(e.input, v.bp, ExtraBits(cs.part));
    CodesNext(e, cs, g, v, limit, b, ExtraPart(cs, x), b.mode.cm, v');
    g' := Next(g, b);
  }

  lemma ExtraFits(e: Env, cs: CodesState, g: Shadow, v: View, limit: nat, v': View) returns (g': Shadow)
    requires limit <= |e.input| && (cs.part.LENEXT? || cs.part.DISTEXT?) && v.bp + ExtraBits(cs.part) <= 8 * limit
    requires v'.bp == v.bp + ExtraBits(cs.part) && v'.out == v.out && v'.last == v.last && v'.hufts == v.hufts
    requires Fits(e, CODES(cs), g, v)
    ensures g'.steps > g.steps
    ensures Fits(e, CODES(cs.(part := ExtraPart(cs, Peek(e.input, v.bp, ExtraBits(cs.part))))), g', v')
    ensures cs.part.LENEXT? ==> Consumed(g') == 0
  {
    hide *;
    if cs.part.LENEXT? {
      g' := LenExtFits(e, cs, g, v, limit, v');
    } else {
      g' := DistExtFits(e, cs, g, v, limit, v');
    }
  }

  lemma ExtraPartIs(cs: CodesState, x: nat)
    ensures cs.part.LENEXT? ==> ExtraPart(cs, x) == DIST(cs.part.len + x, cs.dtree, cs.dbits)
    ensures cs.part.DISTEXT? ==> ExtraPart(cs, x) == COPY(cs.part.len, cs.part.dist + x)
  {
  }

  // ---- output ----

  lemma CopyBound(e: Env, cs: CodesState, len: nat, dist: nat, g: Shadow, v: View)
    requires cs.part == COPY(len, dist) && Fits(e, CODES(cs), g, v)
    ensures dist > 0 && len <= 258
  {
    hide Fits, TreesRel, WF, Reached, TreesWF;
    CodesFacts(e, cs, g, v);
  }

  lemma DistLenBound(e: Env, cs: CodesState, g: Shadow, v: View)
    requires Fits(e, CODES(cs), g, v)
    ensures cs.part.DIST? ==> 3 <= cs.part.len <= 258
    ensures cs.part.DISTEXT? ==> 3 <= cs.part.len <= 258
  {
    hide Fits, TreesRel, WF, Reached, TreesWF, Points;
    CodesFacts(e, cs, g, v);
  }

  lemma CopyOne(e: Env, cs: CodesState, len: nat, dist: nat, g: Shadow, v: View, limit: nat) returns (g': Shadow)
    requires limit <= |e.input| && cs.part == COPY(len, dist) && len > 0 && dist > 0 && |e.base| > 0
    requires Fits(e, CODES(cs), g, v)
    ensures g'.steps > g.steps
    ensures Fits(e, CODES(cs.(part := COPY(len - 1, dist))), g', v.(out := v.out + [HistByte(e.base, v.out, dist)]))
  {
    hide Fits, TreesRel, Step, WF, CodesWF, Reached, HistByte;
    CodesFacts(e, cs, g, v);
    StepCodes(e, g, limit);
    var b := CodesStep(e.input, e.base, limit, g.a, Lt(g), Dt(g), Cm(g)).value;
    CodesNext(e, cs, g, v, limit, b, COPY(len - 1, dist), Copy(len - 1, dist), v.(out := b.out));
    g' := Next(g, b);
  }

  /** Copying n bytes of a match is n steps of one byte. */
  lemma {:induction false} CopyFits(e: Env, cs: CodesState, len: nat, dist: nat, g: Shadow, v: View, limit: nat, n: nat)
    returns (g': Shadow)
    requires limit <= |e.input| && cs.part == COPY(len, dist) && n <= len && dist > 0 && |e.base| > 0
    requires Fits(e, CODES(cs), g, v)
    ensures g'.steps >= g.steps
    ensures Fits(e, CODES(cs.(part := COPY(len - n, dist))), g', v.(out := Extend(e.base, v.out, dist, n)))
    decreases n
  {
    hide Fits, HistByte;
    if n == 0 {
      g' := g;
    } else {
      g' := CopyOne(e, cs, len, dist, g, v, limit);
      var v' := v.(out := v.out + [HistByte(e.base, v.out, dist)]);
      g' := CopyFits(e, cs.(part := COPY(len - 1, dist)), len - 1, dist, g', v', limit, n - 1);
    }
  }

  /** The copy is done. */
  lemma CopyDone(e: Env, cs: CodesState, dist: nat, g: Shadow, v: View, limit: nat) returns (g': Shadow)
    requires limit <= |e.input| && cs.part == COPY(0, dist) && Fits(e, CODES(cs), g, v)
    ensures g'.steps > g.steps
    ensures Fits(e, CODES(cs.(part := START)), g', v)
  {
    hide Fits, TreesRel, Step, WF, CodesWF, Reached;
    CodesFacts(e, cs, g, v);
    StepCodes(e, g, limit);
    var b := CodesStep(e.input, e.base, limit, g.a, Lt(g), Dt(g), Cm(g)).value;
    CodesNext(e, cs, g, v, limit, b, START, Start, v);
    g' := Next(g, b);
  }

  lemma LitFits(e: Env, cs: CodesState, c: byte, g: Shadow, v: View, limit: nat) returns (g': Shadow)
    requires limit <= |e.input| && cs.part == LIT(c) && Fits(e, CODES(cs), g, v)
    ensures g'.steps > g.steps
    ensures Fits(e, CODES(cs.(part := START)), g', v.(out := v.out + [c]))
  {
    hide Fits, TreesRel, Step, WF, CodesWF, Reached;
    CodesFacts(e, cs, g, v);
    StepCodes(e, g, limit);
    var b := CodesStep(e.input, e.base, limit, g.a, Lt(g), Dt(g), Cm(g)).value;
    CodesNext(e, cs, g, v, limit, b, START, Start, v.(out := b.out));
    g' := Next(g, b);
  }

  // ---- the end of a block ----

  lemma WashFits(e: Env, cs: CodesState, g: Shadow, v: View, limit: nat) returns (g': Shadow)
    requires limit <= |e.input| && cs.part == WASH && Fits(e, CODES(cs), g, v)
    ensures g'.steps > g.steps
    ensures Fits(e, CODES(cs.(part := END)), g', v)
  {
    hide Fits, TreesRel, Step, WF, CodesWF, Reached;
    CodesFacts(e, cs, g, v);
    StepCodes(e, g, limit);
    var b := CodesStep(e.input, e.base, limit, g.a, Lt(g), Dt(g), Cm(g)).value;
    CodesNext(e, cs, g, v, limit, b, END, CodeMode.End, v);
    g' := Next(g, b);
  }

  /** What follows a block. */
  function AfterBlock(last: bool): BlockPart { if last then DRY else TYPE }

  lemma EndFits(e: Env, cs: CodesState, g: Shadow, v: View, limit: nat) returns (g': Shadow)
    requires limit <= |e.input| && cs.part == END && Fits(e, CODES(cs), g, v)
    ensures g'.steps > g.steps
    ensures Fits(e, AfterBlock(v.last), g', v)
  {
    hide Run, Env.Ok, TreesRel, Step, WF, CodesWF, Reached;
    FitsFacts(e, CODES(cs), g, v);
    CodesFacts(e, cs, g, v);
    StepCodes(e, g, limit);
    var b := CodesStep(e.input, e.base, limit, g.a, Lt(g), Dt(g), Cm(g)).value;
    ReachedNext(e, g, v, limit, b);
    g' := Next(g, b);
    ReachedAlso(e, g', At(v, b), g', v);
  }

  lemma DryFits(e: Env, g: Shadow, v: View, limit: nat) returns (g': Shadow)
    requires limit <= |e.input| && Fits(e, DRY, g, v)
    ensures g'.steps > g.steps
    ensures Fits(e, DONE, g', v) && Stuck(e, g', limit)
  {
    hide Run, Env.Ok, Reached;
    FitsFacts(e, DRY, g, v);
    var b := Step(e.input, e.base, limit, g.a).value;
    hide WF, Step;
    ReachedNext(e, g, v, limit, b);
    g' := Next(g, b);
    ReachedAlso(e, g', At(v, b), g', v);
    EndStuck(e, g', limit);
  }

  /** DONE and BAD are the end. */
  lemma EndedStuck(e: Env, mode: BlockPart, g: Shadow, v: View, limit: nat)
    requires limit <= |e.input| && (mode.DONE? || mode.BAD?) && Fits(e, mode, g, v)
    ensures Stuck(e, g, limit)
  {
    hide Run, Env.Ok, Reached, Stuck;
    FitsFacts(e, mode, g, v);
    EndStuck(e, g, limit);
  }
}
