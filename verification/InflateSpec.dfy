/**
 * Inflating as a deterministic machine over bit positions: the format of RFC
 * 1951 with the points at which infblock.c and infcodes.c stop for more input.
 */
module InflateSpec {
  import opened Arith
  import opened CanonicalCode
  import opened HuftSpec
  import opened CodeLengths
  import opened InflateTrees
  import opened FixedTrees
  import opened Stream
  import opened OutputWindow

  datatype CodeMode =
    | Start
    | Len(w: nat, need: nat)                 // w bits of the code consumed, need more to look at
    | LenExt(len: nat, get: nat)
    | Dist(len: nat, w: nat, need: nat)
    | DistExt(len: nat, dist: nat, get: nat)
    | Copy(len: nat, dist: nat)
    | Lit(c: byte)
    | Wash
    | End
    | BadCode

  datatype BlockMode =
    | Type
    | Lens
    | Stored(left: nat)
    | Table
    | BTree(table: nat, got: seq<nat>)       // the code lengths of the code-length code read so far
    | DTree(table: nat, cl: seq<nat>, got: seq<nat>)
    | InCodes(lt: Tree, dt: Option<Tree>, cm: CodeMode)
    | Dry
    | Done
    | Bad

  datatype AState = AState(mode: BlockMode, last: bool, bp: nat, out: seq<byte>)

  // ---- symbols ----

  /** What one table lookup finds: the code with index i after dropping bits, or a deeper table. */
  datatype Looked = Leaf(i: int, bits: nat) | Deeper(need: nat)

  /** Looking at the next need bits after w bits of a code. */
  ghost function Look(job: Job, input: seq<byte>, bp: nat, w: nat, need: nat): (r: Looked)
    requires job.g <= 15 && w <= bp && w + need <= 15
    ensures r.Deeper? ==> w + need + r.need <= 15
    ensures r.Leaf? ==> r.bits <= need
  {
    var x := Shl(Rev(Peek(input, bp - w, w + need), w + need), 15 - w - need);
    var k := LenAt(job.c, x);
    if k <= w + need then Leaf(IndexAt(job.c, x), if k > w then k - w else 0)
    else Deeper(BitsAt(job, w + need, x))
  }

  ghost function TreeLook(t: Tree, input: seq<byte>, bp: nat, w: nat, need: nat): (r: Looked)
    requires t.Ok() && w <= bp && w + need <= 15
    ensures r.Deeper? ==> w + need + r.need <= 15
    ensures r.Leaf? ==> r.bits <= need
  {
    Look(t.Job(), input, bp, w, need)
  }

  datatype Sym = Literal(c: byte) | EndOfBlock | Extra(base: nat, get: nat) | Invalid

  /** What the symbol with index i in the sorted list stands for. */
  function Meaning(job: Job, i: int): Sym
    requires forall t | 0 <= t < |job.v| && job.v[t] >= job.s ::
      job.v[t] - job.s < |job.d| && job.v[t] - job.s < |job.e|
  {
    if i < 0 || i >= |job.v| then Invalid
    else if job.v[i] < job.s then (if job.v[i] < 256 then Literal(job.v[i]) else EndOfBlock)
    else if job.e[job.v[i] - job.s] > 15 then Invalid
    else Extra(job.d[job.v[i] - job.s], job.e[job.v[i] - job.s])
  }

  ghost function TreeSym(t: Tree, i: int): Sym
    requires t.Ok()
  {
    Meaning(t.Job(), i)
  }

  ghost function Root(t: Tree): (l: nat)
    requires t.Ok()
    ensures 1 <= l <= 15
  {
    RootFits(t);
    t.Job().l
  }

  // ---- blocks ----

  /** The order in which the lengths of the code-length code are sent, and where each is sent. */
  const BORDER: seq<nat> := [16, 17, 18, 0, 8, 7, 9, 6, 10, 5, 11, 4, 12, 3, 13, 2, 14, 1, 15]
  const SENT_AT: seq<nat> := [3, 17, 15, 13, 11, 9, 7, 5, 4, 6, 8, 10, 12, 14, 16, 18, 0, 1, 2]

  function Border(i: nat): (r: nat)
    ensures r < 19
  {
    if i < 19 then BORDER[i] else 0
  }

  /** The lengths of the code-length code by symbol; those not sent are zero. */
  function Unpermute(got: seq<nat>): seq<nat> {
    seq(19, k requires 0 <= k < 19 => if SENT_AT[k] < |got| then got[SENT_AT[k]] else 0)
  }

  function LitCount(table: nat): nat { 257 + table % 32 }

  function DistCount(table: nat): nat { 1 + (table / 32) % 32 }

  function LenCodes(table: nat): nat { 4 + table / 1024 }

  /** The code-length symbol with index i; an unused pattern stands for the last symbol. */
  function LengthSym(job: Job, i: int): nat
    requires |job.v| > 0
  {
    if 0 <= i < |job.v| then job.v[i] else job.v[|job.v| - 1]
  }

  function RepeatBits(c: nat): nat {
    if c == 18 then 7 else if c == 17 then 3 else 2
  }

  function RepeatBase(c: nat): nat {
    if c == 18 then 11 else 3
  }

  function Repeat(n: nat, x: nat): (r: seq<nat>)
    ensures |r| == n && forall i | 0 <= i < n :: r[i] == x
  {
    if n == 0 then [] else Repeat(n - 1, x) + [x]
  }

  // ---- the machine ----

  /**
   * The trees of a block: lengths of literal/length symbols,
   * and of distance symbols unless there are no length symbols.
   */
  ghost predicate TreesWF(lt: Tree, dt: Option<Tree>) {
    && lt.Ok() && lt.s == 257 && lt.d == CPLENS && lt.e == CPLEXT
    && (dt.Some? ==> dt.value.Ok() && dt.value.s == 0 && dt.value.d == CPDIST && dt.value.e == CPDEXT)
    && (dt.None? ==> |lt.b| <= 257)
  }

  ghost predicate CodesWF(lt: Tree, dt: Option<Tree>, cm: CodeMode, bp: nat) {
    && TreesWF(lt, dt)
    && match cm
       case Len(w, need) => w <= bp && w + need <= 15
       case LenExt(len, get) => get <= 5 && 3 <= len && len + Pow2(get) <= 259 && dt.Some?
       case Dist(len, w, need) => w <= bp && w + need <= 15 && 3 <= len <= 258 && dt.Some?
       case DistExt(len, dist, get) => dist > 0 && get <= 13 && 3 <= len <= 258 && dt.Some?
       case Copy(len, dist) => dist > 0 && len <= 258
       case _ => true
  }

  predicate TableWF(table: nat) {
    table % 32 <= 29 && (table / 32) % 32 <= 29 && table / 1024 < 16
  }

  ghost predicate BTreeWF(table: nat, got: seq<nat>) {
    TableWF(table) && |got| <= LenCodes(table) && forall i | 0 <= i < |got| :: got[i] <= 7
  }

  ghost predicate DTreeWF(table: nat, cl: seq<nat>, got: seq<nat>) {
    && TableWF(table) && Accept(BitsTree(cl)) && |cl| == 19 && (forall i | 0 <= i < 19 :: cl[i] <= 7)
    && |got| <= LitCount(table) + DistCount(table) && forall i | 0 <= i < |got| :: got[i] <= 15
  }

  ghost predicate WF(a: AState) {
    match a.mode
    case BTree(table, got) => BTreeWF(table, got)
    case DTree(table, cl, got) => DTreeWF(table, cl, got)
    case InCodes(lt, dt, cm) => CodesWF(lt, dt, cm, a.bp)
    case Stored(left) => left > 0 && a.bp % 8 == 0
    case Lens => a.bp % 8 == 0
    case _ => true
  }

  /** Are n bits supplied? */
  predicate Has(bp: nat, n: nat, limit: nat) { bp + n <= 8 * limit }

  /** What a literal/length symbol leads to. */
  function AfterLen(m: Sym): CodeMode {
    match m
    case Literal(c) => Lit(c)
    case EndOfBlock => Wash
    case Extra(b, get) => LenExt(b, get)
    case Invalid => BadCode
  }

  /** What a distance symbol leads to. */
  function AfterDist(m: Sym, len: nat): CodeMode {
    match m
    case Extra(b, get) => DistExt(len, b, get)
    case _ => BadCode
  }

  ghost function LenStep(input: seq<byte>, limit: nat, a: AState, lt: Tree, dt: Option<Tree>, w: nat,
                         need: nat): Option<AState>
    requires lt.Ok() && w <= a.bp && w + need <= 15
  {
    if !Has(a.bp, need, limit) then None
    else match TreeLook(lt, input, a.bp, w, need)
      case Deeper(n) => Some(a.(bp := a.bp + need, mode := InCodes(lt, dt, Len(w + need, n))))
      case Leaf(i, bits) => Some(a.(bp := a.bp + bits, mode := InCodes(lt, dt, AfterLen(TreeSym(lt, i)))))
  }

  ghost function DistStep(input: seq<byte>, limit: nat, a: AState, lt: Tree, dt: Option<Tree>, len: nat, w: nat,
                          need: nat): Option<AState>
    requires dt.Some? && dt.value.Ok() && w <= a.bp && w + need <= 15
  {
    if !Has(a.bp, need, limit) then None
    else match TreeLook(dt.value, input, a.bp, w, need)
      case Deeper(n) => Some(a.(bp := a.bp + need, mode := InCodes(lt, dt, Dist(len, w + need, n))))
      case Leaf(i, bits) => Some(a.(bp := a.bp + bits, mode := InCodes(lt, dt, AfterDist(TreeSym(dt.value, i), len))))
  }

  ghost function CodesStep(input: seq<byte>, base: seq<byte>, limit: nat, a: AState, lt: Tree, dt: Option<Tree>,
                           cm: CodeMode): Option<AState>
    requires |base| > 0 && CodesWF(lt, dt, cm, a.bp)
  {
    match cm
    case Start => Some(a.(mode := InCodes(lt, dt, Len(0, Root(lt)))))
    case Len(w, need) => LenStep(input, limit, a, lt, dt, w, need)
    case LenExt(len, get) =>
      if !Has(a.bp, get, limit) then None
      else Some(a.(bp := a.bp + get, mode := InCodes(lt, dt, Dist(len + Peek(input, a.bp, get), 0, Root(dt.value)))))
    case Dist(len, w, need) => DistStep(input, limit, a, lt, dt, len, w, need)
    case DistExt(len, dist, get) =>
      if !Has(a.bp, get, limit) then None
      else Some(a.(bp := a.bp + get, mode := InCodes(lt, dt, Copy(len, dist + Peek(input, a.bp, get)))))
    case Copy(len, dist) =>
      if len == 0 then Some(a.(mode := InCodes(lt, dt, Start)))
      else Some(a.(out := a.out + [HistByte(base, a.out, dist)], mode := InCodes(lt, dt, Copy(len - 1, dist))))
    case Lit(c) => Some(a.(out := a.out + [c], mode := InCodes(lt, dt, Start)))
    case Wash => Some(a.(mode := InCodes(lt, dt, End)))
    case End => Some(a.(mode := if a.last then Dry else Type))
    case BadCode => None
  }

  ghost function TypeStep(input: seq<byte>, limit: nat, a: AState): Option<AState> {
    if !Has(a.bp, 3, limit) then None
    else
      var t := Peek(input, a.bp, 3);
      var b := a.(last := t % 2 == 1, bp := a.bp + 3);
      if t / 2 == 0 then Some(b.(bp := AlignUp(a.bp + 3), mode := Lens))
      else if t / 2 == 1 then FixedOk(); Some(b.(mode := InCodes(FixedLitTree(), Some(FixedDistTree()), Start)))
      else if t / 2 == 2 then Some(b.(mode := Table))
      else Some(b.(mode := Bad))
  }

  ghost function LensStep(input: seq<byte>, limit: nat, a: AState): Option<AState> {
    if !Has(a.bp, 32, limit) then None
    else
      var n, m := Peek(input, a.bp, 16), Peek(input, a.bp + 16, 16);
      if n + m != 65535 then Some(a.(mode := Bad))
      else Some(a.(bp := a.bp + 32, mode := if n > 0 then Stored(n) else if a.last then Dry else Type))
  }

  ghost function TableStep(input: seq<byte>, limit: nat, a: AState): Option<AState> {
    if !Has(a.bp, 14, limit) then None
    else
      var t := Peek(input, a.bp, 14);
      if t % 32 > 29 || (t / 32) % 32 > 29 then Some(a.(mode := Bad))
      else Some(a.(bp := a.bp + 14, mode := BTree(t, [])))
  }

  ghost function BTreeStep(input: seq<byte>, limit: nat, a: AState, table: nat, got: seq<nat>): Option<AState> {
    if |got| < LenCodes(table) then
      if !Has(a.bp, 3, limit) then None
      else Some(a.(bp := a.bp + 3, mode := BTree(table, got + [Peek(input, a.bp, 3)])))
    else if Accept(BitsTree(Unpermute(got))) then Some(a.(mode := DTree(table, Unpermute(got), [])))
    else Some(a.(mode := Bad))
  }

  /** The symbol and code length found at the bit position in a dynamic block's header. */
  ghost function ReadSym(input: seq<byte>, bp: nat, cl: seq<nat>): (nat, nat)
    requires Accept(BitsTree(cl))
  {
    var t := BitsTree(cl);
    match TreeLook(t, input, bp, 0, Root(t))
    case Deeper(_) => (0, 0)
    case Leaf(i, bits) => (LengthSym(t.Job(), i), bits)
  }

  /** Reads one code length or one repeat. */
  ghost function ReadLength(input: seq<byte>, limit: nat, a: AState, table: nat, cl: seq<nat>,
                            got: seq<nat>): Option<AState>
    requires Accept(BitsTree(cl))
  {
    if !Has(a.bp, Root(BitsTree(cl)), limit) then None
    else
      var (c, bits) := ReadSym(input, a.bp, cl);
      if c < 16 then Some(a.(bp := a.bp + bits, mode := DTree(table, cl, got + [c])))
      else if !Has(a.bp, bits + RepeatBits(c), limit) then None
      else
        var n := RepeatBase(c) + Peek(input, a.bp + bits, RepeatBits(c));
        var b := a.(bp := a.bp + bits + RepeatBits(c));
        if |got| + n > LitCount(table) + DistCount(table) || (c == 16 && |got| < 1) then Some(b.(mode := Bad))
        else Some(b.(mode := DTree(table, cl, got + Repeat(n, if c == 16 then got[|got| - 1] else 0))))
  }

  ghost function DTreeStep(input: seq<byte>, limit: nat, a: AState, table: nat, cl: seq<nat>,
                           got: seq<nat>): Option<AState>
    requires Accept(BitsTree(cl)) && |got| <= LitCount(table) + DistCount(table)
  {
    if |got| < LitCount(table) + DistCount(table) then ReadLength(input, limit, a, table, cl, got)
    else
      var ll, dl := got[..LitCount(table)], got[LitCount(table)..];
      if DynAccept(ll, dl) then
        Some(a.(mode := InCodes(LitTree(ll), if DistTree(dl).Empty() then None else Some(DistTree(dl)), Start)))
      else Some(a.(mode := Bad))
  }

  /**
   * One step with the first limit bytes of the input supplied; None when more input is needed or nothing is left to do.
   */
  ghost function Step(input: seq<byte>, base: seq<byte>, limit: nat, a: AState): Option<AState>
    requires |base| > 0 && limit <= |input| && WF(a)
  {
    hide Accept, TreesWF, CodesStep, DTreeStep, BTreeStep, TableStep, LensStep, TypeStep;
    match a.mode
    case Type => TypeStep(input, limit, a)
    case Lens => LensStep(input, limit, a)
    case Stored(left) =>
      if !Has(a.bp, 8, limit) then None
      else Some(a.(bp := a.bp + 8, out := a.out + [input[a.bp / 8]],
                   mode := if left > 1 then Stored(left - 1) else if a.last then Dry else Type))
    case Table => TableStep(input, limit, a)
    case BTree(table, got) => BTreeStep(input, limit, a, table, got)
    case DTree(table, cl, got) => DTreeStep(input, limit, a, table, cl, got)
    case InCodes(lt, dt, cm) => CodesStep(input, base, limit, a, lt, dt, cm)
    case Dry => Some(a.(mode := Done))
    case Done => None
    case Bad => None
  }

  // ---- properties of single steps ----

  lemma OrderSymbols(b: seq<nat>, i: nat)
    requires i < |Order(b, 15)|
    ensures Order(b, 15)[i] < |b|
  {
    hide Order, CountsOf, Off;
    OrderBelow(b, 15);
  }

  lemma LitMeaning(lt: Tree, dt: Option<Tree>, i: int)
    requires TreesWF(lt, dt)
    ensures TreeSym(lt, i).Extra? ==> dt.Some? && TreeSym(lt, i).get <= 5
    ensures TreeSym(lt, i).Extra? ==> 3 <= TreeSym(lt, i).base && TreeSym(lt, i).base + Pow2(TreeSym(lt, i).get) <= 259
  {
    hide Order, CountsOf, Off, Over, Fill, Width, Pos;
    JobValid(lt.b, lt.s, lt.d, lt.e, lt.want);
    if 0 <= i < |lt.Job().v| {
      OrderSymbols(lt.b, i);
    }
    LengthTable();
  }

  lemma LengthTable()
    ensures |CPLENS| == |CPLEXT| == 31
    ensures forall i | 0 <= i < 31 :: CPLEXT[i] <= 5 || CPLEXT[i] == 112
    ensures forall i | 0 <= i < 31 :: CPLEXT[i] <= 5 ==> 3 <= CPLENS[i] && CPLENS[i] + Pow2(CPLEXT[i]) <= 259
  {
    assert Pow2(0) == 1 && Pow2(1) == 2 && Pow2(2) == 4 && Pow2(3) == 8 && Pow2(4) == 16 && Pow2(5) == 32;
  }

  lemma DistanceTable()
    ensures |CPDIST| == |CPDEXT| == 30
    ensures forall i | 0 <= i < 30 :: CPDEXT[i] <= 13 && CPDIST[i] >= 1
  {
  }

  lemma DistMeaning(lt: Tree, dt: Option<Tree>, i: int)
    requires TreesWF(lt, dt) && dt.Some?
    ensures TreeSym(dt.value, i).Extra? || TreeSym(dt.value, i).Invalid?
    ensures TreeSym(dt.value, i).Extra? ==> TreeSym(dt.value, i).get <= 13 && TreeSym(dt.value, i).base >= 1
  {
    hide Order, CountsOf, Off, Over, Fill, Width, Pos, CPDIST, CPDEXT;
    var t := dt.value;
    JobValid(t.b, t.s, t.d, t.e, t.want);
    DistanceTable();
  }

  lemma RootFits(t: Tree)
    requires t.Ok()
    ensures 1 <= t.Job().l <= t.Job().g <= 15
  {
    hide Order, CountsOf, Off, Over, Fill, Width, Pos;
  }

  lemma LenStepWF(input: seq<byte>, limit: nat, a: AState, lt: Tree, dt: Option<Tree>, w: nat, need: nat)
    requires CodesWF(lt, dt, Len(w, need), a.bp) && LenStep(input, limit, a, lt, dt, w, need).Some?
    ensures WF(LenStep(input, limit, a, lt, dt, w, need).value)
  {
    hide TreesWF, TreeSym, Tree.Ok, Accept, TreeLook, Has;
    TreesFacts(lt, dt);
    match TreeLook(lt, input, a.bp, w, need)
    case Deeper(n) =>
    case Leaf(i, bits) =>
      LitMeaning(lt, dt, i);
  }

  lemma DistStepWF(input: seq<byte>, limit: nat, a: AState, lt: Tree, dt: Option<Tree>, len: nat, w: nat, need: nat)
    requires CodesWF(lt, dt, Dist(len, w, need), a.bp) && DistStep(input, limit, a, lt, dt, len, w, need).Some?
    ensures WF(DistStep(input, limit, a, lt, dt, len, w, need).value)
  {
    hide TreesWF, TreeSym, Tree.Ok, Accept, TreeLook, Has;
    TreesFacts(lt, dt);
    match TreeLook(dt.value, input, a.bp, w, need)
    case Deeper(n) =>
    case Leaf(i, bits) =>
      DistMeaning(lt, dt, i);
  }

  lemma CodesStepWF(input: seq<byte>, base: seq<byte>, limit: nat, a: AState, lt: Tree, dt: Option<Tree>, cm: CodeMode)
    requires |base| > 0 && a.mode == InCodes(lt, dt, cm) && CodesWF(lt, dt, cm, a.bp)
    requires CodesStep(input, base, limit, a, lt, dt, cm).Some?
    ensures WF(CodesStep(input, base, limit, a, lt, dt, cm).value)
  {
    hide TreesWF, LenStep, DistStep, HistByte, Tree.Ok, Root, Accept;
    TreesFacts(lt, dt);
    match cm
    case Len(w, need) => LenStepWF(input, limit, a, lt, dt, w, need);
    case Dist(len, w, need) => DistStepWF(input, limit, a, lt, dt, len, w, need);
    case _ =>
  }

  lemma TreesFacts(lt: Tree, dt: Option<Tree>)
    requires TreesWF(lt, dt)
    ensures lt.Ok() && (dt.Some? ==> dt.value.Ok())
  {
  }

  lemma FixedWF()
    ensures TreesWF(FixedLitTree(), Some(FixedDistTree()))
  {
    hide FixedLit, FixedDist, CPLENS, CPLEXT, CPDIST, CPDEXT;
    FixedOk();
  }

  lemma DynWF(ll: seq<nat>, dl: seq<nat>)
    requires DynAccept(ll, dl)
    ensures TreesWF(LitTree(ll), if DistTree(dl).Empty() then None else Some(DistTree(dl)))
  {
    hide TotalUsed, CountsOf, Over, CPLENS, CPLEXT, CPDIST, CPDEXT, Off, Pos, NextCode;
  }

  lemma AlignUpAligned(p: nat)
    ensures p <= AlignUp(p) < p + 8 && AlignUp(p) % 8 == 0
  {
  }

  /** A code-length symbol is at most 18, and 16 to 18 are the repeats. */
  lemma LengthSymBound(cl: seq<nat>, i: int)
    requires Accept(BitsTree(cl)) && |cl| == 19
    ensures |BitsTree(cl).Job().v| > 0 && LengthSym(BitsTree(cl).Job(), i) < 19
  {
    hide TotalUsed, CountsOf, Over, Off, Pos, NextCode, Order, Fill, Width;
    var job := BitsTree(cl).Job();
    JobValid(cl, 19, [], [], 7);
    OrderSymbols(cl, if 0 <= i < |job.v| then i else |job.v| - 1);
  }

  lemma TypeStepWF(input: seq<byte>, limit: nat, a: AState)
    requires TypeStep(input, limit, a).Some?
    ensures WF(TypeStep(input, limit, a).value)
  {
    hide TreesWF, Tree.Ok, Accept, FixedLitTree, FixedDistTree, Peek;
    FixedWF();
    AlignUpAligned(a.bp + 3);
  }

  lemma BTreeStepWF(input: seq<byte>, limit: nat, a: AState, table: nat, got: seq<nat>)
    requires a.mode == BTree(table, got) && WF(a) && BTreeStep(input, limit, a, table, got).Some?
    ensures WF(BTreeStep(input, limit, a, table, got).value)
  {
    hide TreesWF, Tree.Ok, Accept, Peek;
    PeekThree(input, a.bp);
  }

  lemma PeekThree(input: seq<byte>, p: nat)
    ensures Peek(input, p, 3) <= 7
  {
    assert Pow2(3) == 8;
  }

  lemma {:induction false} RepeatBound(got: seq<nat>, n: nat, x: nat)
    requires x <= 15 && forall i | 0 <= i < |got| :: got[i] <= 15
    ensures |got + Repeat(n, x)| == |got| + n
    ensures forall i | 0 <= i < |got| + n :: (got + Repeat(n, x))[i] <= 15
  {
  }

  lemma ReadLengthWF(input: seq<byte>, limit: nat, a: AState, table: nat, cl: seq<nat>, got: seq<nat>)
    requires a.mode == DTree(table, cl, got) && Accept(BitsTree(cl)) && |got| < LitCount(table) + DistCount(table)
    requires ReadLength(input, limit, a, table, cl, got).Some? && WF(a)
    ensures WF(ReadLength(input, limit, a, table, cl, got).value)
  {
    hide TreesWF, Tree.Ok, Accept, Peek, Repeat, ReadSym, Has, RepeatBits, RepeatBase, LitCount, DistCount, Step;
    var (c, bits) := ReadSym(input, a.bp, cl);
    if c >= 16 {
      var n := RepeatBase(c) + Peek(input, a.bp + bits, RepeatBits(c));
      RepeatBound(got, n, if c == 16 && |got| > 0 then got[|got| - 1] else 0);
    }
  }

  lemma DTreeStepWF(input: seq<byte>, limit: nat, a: AState, table: nat, cl: seq<nat>, got: seq<nat>)
    requires a.mode == DTree(table, cl, got) && Accept(BitsTree(cl)) && |got| <= LitCount(table) + DistCount(table)
    requires DTreeStep(input, limit, a, table, cl, got).Some? && WF(a)
    ensures WF(DTreeStep(input, limit, a, table, cl, got).value)
  {
    hide TreesWF, Tree.Ok, Accept, DynAccept, ReadLength;
    var total := LitCount(table) + DistCount(table);
    if |got| < total {
      ReadLengthWF(input, limit, a, table, cl, got);
    } else if DynAccept(got[..LitCount(table)], got[LitCount(table)..]) {
      DynWF(got[..LitCount(table)], got[LitCount(table)..]);
    }
  }

  lemma PeekFourteen(input: seq<byte>, p: nat)
    ensures Peek(input, p, 14) < 16384
  {
    assert Pow2(14) == 16384;
  }

  lemma StepWF(input: seq<byte>, base: seq<byte>, limit: nat, a: AState)
    requires |base| > 0 && limit <= |input| && WF(a) && Step(input, base, limit, a).Some?
    ensures WF(Step(input, base, limit, a).value)
  {
    hide Accept, TreesWF, CodesStep, DTreeStep, BTreeStep, TypeStep, CodesWF, Peek;
    match a.mode
    case Type => TypeStepWF(input, limit, a);
    case Table => PeekFourteen(input, a.bp);
    case BTree(table, got) => BTreeStepWF(input, limit, a, table, got);
    case DTree(table, cl, got) => DTreeStepWF(input, limit, a, table, cl, got);
    case InCodes(lt, dt, cm) => CodesStepWF(input, base, limit, a, lt, dt, cm);
    case _ =>
  }

  /** More supplied input never changes what a step does. */
  lemma StepMore(input: seq<byte>, base: seq<byte>, limit: nat, limit': nat, a: AState)
    requires |base| > 0 && limit <= limit' <= |input| && WF(a) && Step(input, base, limit, a).Some?
    ensures Step(input, base, limit', a) == Step(input, base, limit, a)
  {
    hide Accept, TreesWF, Peek, TreeLook, ReadSym, TreeSym, DynAccept, Root, Unpermute, HistByte, Tree.Ok, RepeatBits,
      RepeatBase, AlignUp;
    match a.mode
    case DTree(table, cl, got) => ReadMore(input, limit, limit', a, table, cl, got);
    case InCodes(lt, dt, cm) => CodesMore(input, base, limit, limit', a, lt, dt, cm);
    case _ =>
  }

  lemma ReadMore(input: seq<byte>, limit: nat, limit': nat, a: AState, table: nat, cl: seq<nat>, got: seq<nat>)
    requires Accept(BitsTree(cl)) && limit <= limit' && |got| <= LitCount(table) + DistCount(table)
    requires DTreeStep(input, limit, a, table, cl, got).Some?
    ensures DTreeStep(input, limit', a, table, cl, got) == DTreeStep(input, limit, a, table, cl, got)
  {
    hide Accept, Peek, ReadSym, DynAccept, Root, RepeatBits, RepeatBase, Repeat;
  }

  lemma CodesMore(input: seq<byte>, base: seq<byte>, limit: nat, limit': nat, a: AState, lt: Tree, dt: Option<Tree>,
                  cm: CodeMode)
    requires |base| > 0 && CodesWF(lt, dt, cm, a.bp) && limit <= limit'
    requires CodesStep(input, base, limit, a, lt, dt, cm).Some?
    ensures CodesStep(input, base, limit', a, lt, dt, cm) == CodesStep(input, base, limit, a, lt, dt, cm)
  {
    hide TreesWF, Peek, TreeLook, TreeSym, Root, HistByte, Tree.Ok;
  }

  /** Output is only ever appended to. */
  lemma StepGrows(input: seq<byte>, base: seq<byte>, limit: nat, a: AState)
    requires |base| > 0 && limit <= |input| && WF(a) && Step(input, base, limit, a).Some?
    ensures a.out <= Step(input, base, limit, a).value.out
  {
    hide Accept, TreesWF, Peek, HistByte, Tree.Ok, AlignUp, CodesStep, CodesWF, DTreeStep, DTreeWF, BTreeStep,
      Unpermute, FixedLitTree, FixedDistTree;
    match a.mode
    case InCodes(lt, dt, cm) => CodesGrow(input, base, limit, a, lt, dt, cm);
    case BTree(table, got) => BTreeGrows(input, limit, a, table, got);
    case DTree(table, cl, got) => DTreeGrows(input, limit, a, table, cl, got);
    case _ =>
  }

  lemma BTreeGrows(input: seq<byte>, limit: nat, a: AState, table: nat, got: seq<nat>)
    requires BTreeStep(input, limit, a, table, got).Some?
    ensures a.out <= BTreeStep(input, limit, a, table, got).value.out
  {
    hide Accept, Peek, Unpermute;
  }

  lemma DTreeGrows(input: seq<byte>, limit: nat, a: AState, table: nat, cl: seq<nat>, got: seq<nat>)
    requires DTreeWF(table, cl, got)
    ensures Accept(BitsTree(cl)) && |got| <= LitCount(table) + DistCount(table)
    ensures DTreeStep(input, limit, a, table, cl, got).Some? ==>
      a.out <= DTreeStep(input, limit, a, table, cl, got).value.out
  {
    hide Accept, Peek, ReadSym, Root, DynAccept, Tree.Empty, RepeatBits, RepeatBase, Repeat;
  }

  lemma CodesGrow(input: seq<byte>, base: seq<byte>, limit: nat, a: AState, lt: Tree, dt: Option<Tree>, cm: CodeMode)
    requires |base| > 0 && CodesWF(lt, dt, cm, a.bp) && CodesStep(input, base, limit, a, lt, dt, cm).Some?
    ensures a.out <= CodesStep(input, base, limit, a, lt, dt, cm).value.out
  {
    hide TreesWF, Peek, TreeLook, TreeSym, Root, HistByte, Tree.Ok;
  }

  // ---- runs ----

  const INITIAL: AState := AState(Type, false, 0, [])

  /** The state after n steps with the whole input supplied; None if the machine stops before. */
  ghost function Run(input: seq<byte>, base: seq<byte>, n: nat): (r: Option<AState>)
    requires |base| > 0
    ensures r.Some? ==> WF(r.value)
  {
    if n == 0 then Some(INITIAL)
    else
      var p := Run(input, base, n - 1);
      if p.None? then None
      else
        var q := Step(input, base, |input|, p.value);
        if q.None? then None else
          StepWF(input, base, |input|, p.value);
          q
  }

  lemma {:induction false} RunGrows(input: seq<byte>, base: seq<byte>, m: nat, n: nat)
    requires |base| > 0 && m <= n && Run(input, base, n).Some?
    ensures Run(input, base, m).Some? && Run(input, base, m).value.out <= Run(input, base, n).value.out
    decreases n - m
  {
    hide Step, WF;
    if m < n {
      RunGrows(input, base, m, n - 1);
      var p := Run(input, base, n - 1).value;
      StepGrows(input, base, |input|, p);
    }
  }

  /** A run that cannot go on has the most steps of all. */
  lemma StoppedIsLast(input: seq<byte>, base: seq<byte>, m: nat, n: nat)
    requires |base| > 0 && Run(input, base, m).Some? && Run(input, base, n).Some?
    requires Step(input, base, |input|, Run(input, base, m).value).None?
    ensures n <= m
  {
    if m < n {
      RunGrows(input, base, m + 1, n);
    }
  }
}
