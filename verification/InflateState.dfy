/** The state of infblock.c and infcodes.c, and how it stands for a state of the abstract machine. */
module InflateState {
  import opened Arith
  import opened CanonicalCode
  import opened HuftSpec
  import opened HuftInvariant
  import opened HuftSteps
  import opened HuftDecode
  import opened CodeLengths
  import opened InflateTrees
  import opened TreeCallers
  import opened FixedTrees
  import opened Stream
  import opened InfTrees
  import opened InflateSpec

  /** inflate_codes_mode with the parts of the state that each mode uses. */
  datatype CodesPart =
    | START
    | LEN(tree: nat, need: nat)
    | LENEXT(len: nat, get: nat)
    | DIST(len: nat, tree: nat, need: nat)
    | DISTEXT(len: nat, dist: nat, get: nat)
    | COPY(len: nat, dist: nat)
    | LIT(lit: byte)
    | WASH
    | END
    | BADCODE

  /** inflate_codes_state: the trees stand in the fixed tables or in the table space of the block. */
  datatype CodesState = CodesState(part: CodesPart, fixed: bool, lbits: nat, dbits: nat, ltree: nat, dtree: nat)

  /** inflate_block_mode with the parts of the state that each mode uses. */
  datatype BlockPart =
    | TYPE
    | LENS
    | STORED(left: nat)
    | TABLE
    | BTREE(table: nat, index: nat, blens: seq<nat>)
    | DTREE(table: nat, index: nat, blens: seq<nat>, bb: nat, tb: nat)
    | CODES(codes: CodesState)
    | DRY
    | DONE
    | BAD

  /** How many bits wait in the buffer between two steps: no whole byte too many once the codes of a block are over. */
  predicate Few(b: BlockPart, bitk: nat) {
    match b
    case LENS => true
    case BAD => true
    case DRY => bitk < 8
    case DONE => bitk < 8
    case CODES(cs) => if cs.part.END? then bitk < 8 else bitk < 16
    case _ => bitk < 16
  }

  lemma FewLow(b: BlockPart, bitk: nat)
    requires bitk < 8
    ensures Few(b, bitk)
  {
  }

  lemma FewMid(b: BlockPart, bitk: nat)
    requires bitk < 16 && !b.DRY? && !b.DONE? && (b.CODES? ==> !b.codes.part.END?)
    ensures Few(b, bitk)
  {
  }

  lemma FewAny(b: BlockPart, bitk: nat)
    requires b.LENS? || b.BAD?
    ensures Few(b, bitk)
  {
  }

  lemma FewIs(b: BlockPart, bitk: nat)
    requires Few(b, bitk)
    ensures !b.LENS? && !b.BAD? ==> bitk < 16
    ensures b.DRY? || b.DONE? || (b.CODES? && b.codes.part.END?) ==> bitk < 8
  {
  }

  /** Where the tables of a tree end and which they are. */
  datatype Marks = Marks(hn: nat, tabs: Tabs)

  /** The first string of the prefix of w bits that ends at bit bp. */
  ghost function Prefix(input: seq<byte>, bp: nat, w: nat): nat
    requires w <= bp && w <= 15
  {
    Shl(Rev(Peek(input, bp - w, w), w), 15 - w)
  }

  /** The pointer tree leads to the table of need bits for the w bits of the code consumed so far. */
  ghost predicate Points(m: Marks, tree: nat, w: nat, need: nat, input: seq<byte>, bp: nat) {
    w <= bp && w + need <= 15 && tree in m.tabs && m.tabs[tree] == Tab(w, need, Prefix(input, bp, w))
  }

  ghost predicate TreesRel(cs: CodesState, lt: Tree, dt: Option<Tree>, mem: seq<Huft>, lit: Marks, dist: Marks) {
    && TreesWF(lt, dt)
    && cs.lbits == Root(lt) <= 9 && lt.In(mem, cs.ltree, lit.hn, lit.tabs)
    && (dt.Some? ==> cs.dbits == Root(dt.value) <= 9 && dt.value.In(mem, cs.dtree, dist.hn, dist.tabs))
  }

  ghost predicate PartRel(p: CodesPart, cm: CodeMode, lit: Marks, dist: Marks, input: seq<byte>, bp: nat) {
    match p
    case START => cm.Start?
    case LEN(tree, need) => cm.Len? && cm.need == need && Points(lit, tree, cm.w, need, input, bp)
    case LENEXT(len, get) => cm == LenExt(len, get)
    case DIST(len, tree, need) =>
      cm.Dist? && cm.len == len && cm.need == need && Points(dist, tree, cm.w, need, input, bp)
    case DISTEXT(len, d, get) => cm == DistExt(len, d, get)
    case COPY(len, d) => cm == Copy(len, d)
    case LIT(c) => cm == Lit(c)
    case WASH => cm.Wash?
    case END => cm.End?
    case BADCODE => cm.BadCode?
  }

  /** The lengths read so far stand at their symbols' places. */
  ghost predicate BTreeRel(index: nat, blens: seq<nat>, table: nat, got: seq<nat>) {
    && index == |got| <= 19 <= |blens| == LitCount(table) + DistCount(table)
    && forall i | 0 <= i < index :: blens[Border(i)] == got[i]
  }

  ghost predicate DTreeRel(index: nat, blens: seq<nat>, bb: nat, tb: nat, table: nat, cl: seq<nat>, got: seq<nat>,
                           hufts: seq<Huft>, bits: Marks) {
    && index == |got| <= |blens| == LitCount(table) + DistCount(table)
    && blens[..index] == got && Accept(BitsTree(cl)) && bb == Root(BitsTree(cl))
    && BitsTree(cl).In(hufts, tb, bits.hn, bits.tabs)
  }

  ghost predicate CodesRel(cs: CodesState, am: BlockMode, hufts: seq<Huft>, fixed: seq<Huft>, lit: Marks, dist: Marks,
                           input: seq<byte>, bp: nat)
  {
    && am.InCodes?
    && TreesRel(cs, am.lt, am.dt, if cs.fixed then fixed else hufts, lit, dist)
    && PartRel(cs.part, am.cm, lit, dist, input, bp)
  }

  ghost predicate BlockRel(b: BlockPart, am: BlockMode, hufts: seq<Huft>, fixed: seq<Huft>, bits: Marks, lit: Marks,
                           dist: Marks, input: seq<byte>, bp: nat)
  {
    match b
    case TYPE => am.Type?
    case LENS => am.Lens?
    case STORED(left) => am == Stored(left)
    case TABLE => am.Table?
    case BTREE(table, index, blens) => am.BTree? && am.table == table && BTreeRel(index, blens, table, am.got)
    case DTREE(table, index, blens, bb, tb) =>
      am.DTree? && am.table == table && DTreeRel(index, blens, bb, tb, table, am.cl, am.got, hufts, bits)
    case CODES(cs) => CodesRel(cs, am, hufts, fixed, lit, dist, input, bp)
    case DRY => am.Dry?
    case DONE => am.Done?
    case BAD => am.Bad?
  }

  // ---- one table lookup ----

  lemma PrefixSlot(t: Tab, input: seq<byte>, bp: nat)
    requires t.Fits() && t.w <= bp && t.lo == Prefix(input, bp, t.w)
    ensures t.Slot(Peek(input, bp, t.j)) == Prefix(input, bp + t.j, t.w + t.j)
    ensures Peek(input, bp, t.j) < Pow2(t.j)
  {
    hide Low, Shr, Shl, Rev, Pow2;
    var p := Peek(input, bp - t.w, t.w + t.j);
    PeekDrop(input, bp - t.w, t.w, t.j);
    RevSplit(p, t.w, t.j);
    RevLow(p, t.w);
    var n := 15 - t.w - t.j;
    ShlAdd(Shl(Rev(p, t.w), t.j), Rev(Shr(p, t.w), t.j), n);
    ShlShl(Rev(p, t.w), t.j, n);
  }

  /** The entry e is what the lookup says. */
  ghost predicate EntryIs(t: Tree, r: Looked, e: Huft, a: nat, m: Marks, input: seq<byte>, bp: nat, w: nat, need: nat)
    requires t.Ok()
  {
    match r
    case Leaf(i, bits) =>
      && 1 <= bits == e.bits <= need && i >= 0 && e.exop == LeafExop(t.Job(), i)
      && (i < |t.Job().v| ==> e.base == LeafBase(t.Job(), i))
      && (i >= |t.Job().v| && t.Job().g <= t.Job().l ==> e.base == LeafBase(t.Job(), |t.Job().v| - 1))
    case Deeper(n) =>
      && 1 <= n == e.exop < 16 && 1 <= e.bits == need
      && Points(m, a + e.base, w + need, n, input, bp + need)
  }

  lemma LookEntry(t: Tree, hp: seq<Huft>, root: nat, m: Marks, tree: nat, w: nat, need: nat, input: seq<byte>, bp: nat)
    requires t.Ok() && t.In(hp, root, m.hn, m.tabs) && Points(m, tree, w, need, input, bp)
    ensures tree + Peek(input, bp, need) < |hp| && need <= Root(t)
    ensures var a := tree + Peek(input, bp, need);
      EntryIs(t, TreeLook(t, input, bp, w, need), hp[a], a, m, input, bp, w, need)
  {
    hide Low, Shr, Shl, Rev, Pow2, Peek, LenAt, RankAt, BitsAt, Tree.Ok, LeafExop, LeafBase, Order, Narrow, Off, Pos,
      NextCode, Fill, Width, CountsOf, Over, Level;
    var job := t.Job();
    var tab := m.tabs[tree];
    RootFits(t);
    SoundAt(job, hp, m.tabs, root, m.hn, tree);
    PrefixSlot(tab, input, bp);
    var idx := Peek(input, bp, need);
    SlotAt(job, hp, m.tabs, root, m.hn, tree, idx);
  }

  lemma SoundAt(job: Job, hp: seq<Huft>, tabs: Tabs, root: nat, hn: nat, b: nat)
    requires job.Valid() && Sound(job, hp, tabs, root, hn) && b in tabs
    ensures tabs[b].Fits() && 1 <= tabs[b].j <= job.l && b + Pow2(tabs[b].j) <= hn <= |hp|
  {
    hide Low, LenAt, BitsAt, Complete, Pow2, SlotOK, Level, Off, Pos;
    TabFacts(job, tabs[b]);
  }

  lemma SlotAt(job: Job, hp: seq<Huft>, tabs: Tabs, root: nat, hn: nat, b: nat, idx: nat)
    requires job.Valid() && Sound(job, hp, tabs, root, hn) && b in tabs && idx < Pow2(tabs[b].j)
    ensures tabs[b].Fits() && b + idx < |hp| && SlotOK(job, hp, tabs, b, idx)
  {
    hide Low, LenAt, BitsAt, Complete, Pow2, SlotOK, Level, Off, Pos, TabOK;
    TabFacts(job, tabs[b]);
  }

  // ---- the operation byte ----

  /** e & 16: a length or distance base follows. */
  predicate IsExtra(e: nat) { (e / 16) % 2 == 1 }

  /** e & 64 */
  predicate IsFinal(e: nat) { (e / 64) % 2 == 1 }

  /** e & 32: end of block. */
  predicate IsEnd(e: nat) { (e / 32) % 2 == 1 }

  ghost predicate OpIs(m: Sym, e: Huft) {
    match m
    case Literal(c) => e.exop == 0 && e.base == c
    case EndOfBlock => e.exop == 96
    case Extra(b, g) => g <= 13 && e.exop == 80 + g && e.base == b
    case Invalid => e.exop == 192
  }

  lemma LitOp(lt: Tree, dt: Option<Tree>, i: int, e: Huft)
    requires TreesWF(lt, dt) && i >= 0 && e.exop == LeafExop(lt.Job(), i)
    requires i < |lt.Job().v| ==> e.base == LeafBase(lt.Job(), i)
    ensures OpIs(TreeSym(lt, i), e)
    ensures TreeSym(lt, i).Extra? ==> dt.Some?
  {
    hide Order, CountsOf, Off, Over, Fill, Width, Pos, CPLENS, CPLEXT, NextCode, Complete;
    JobValid(lt.b, lt.s, lt.d, lt.e, lt.want);
    LitMeaning(lt, dt, i);
    LengthTable();
  }

  lemma DistOp(lt: Tree, dt: Option<Tree>, i: int, e: Huft)
    requires TreesWF(lt, dt) && dt.Some? && i >= 0 && e.exop == LeafExop(dt.value.Job(), i)
    requires i < |dt.value.Job().v| ==> e.base == LeafBase(dt.value.Job(), i)
    ensures OpIs(TreeSym(dt.value, i), e)
    ensures TreeSym(dt.value, i).Extra? || TreeSym(dt.value, i).Invalid?
  {
    hide Order, CountsOf, Off, Over, Fill, Width, Pos, CPDIST, CPDEXT, NextCode, Complete;
    JobValid(dt.value.b, dt.value.s, dt.value.d, dt.value.e, dt.value.want);
    DistMeaning(lt, dt, i);
    DistanceTable();
  }
}
