/** The machine's table-sized lookups read exactly the canonical code that comes next in the stream. */
module SymbolRead {
  import opened Arith
  import opened CanonicalCode
  import opened HuftSpec
  import opened HuftSteps
  import HuftDecode
  import opened CodeLengths
  import opened InflateTrees
  import opened TreeCallers
  import opened FixedTrees
  import opened Stream
  import opened OutputWindow
  import opened InflateSpec
  import LengthFits
  import opened DeflateFormat

  /** The next fifteen bits of the stream from bit p on, as a string. */
  ghost function Ahead(input: seq<byte>, p: nat): (x: nat)
    ensures x < Pow2(15)
  {
    Rev(Peek(input, p, 15), 15)
  }

  /** The string that a lookup after w bits of a code sees: the first n bits, then zeros. */
  ghost function Seen(input: seq<byte>, p: nat, n: nat): nat
    requires n <= 15
  {
    Shl(Rev(Peek(input, p, n), n), 15 - n)
  }

  lemma SeenBelow(input: seq<byte>, p: nat, n: nat)
    requires n <= 15
    ensures Seen(input, p, n) <= Ahead(input, p) < Seen(input, p, n) + Pow2(15 - n)
    ensures Low(Seen(input, p, n), 15 - n) == 0
  {
    hide Low, Shr, Shl, Rev, Pow2, Peek;
    var q := Peek(input, p, 15);
    PeekDrop(input, p, n, 15 - n);
    RevSplit(q, n, 15 - n);
    RevLow(q, n);
    RevLess(Shr(q, n), 15 - n);
    SplitUnique(Seen(input, p, n), 15 - n, 0, Rev(Peek(input, p, n), n)) by {
      Pow2Pos(15 - n);
    }
  }

  /** What a lookup of need bits after w bits of the code at bit p finds. */
  lemma LookAhead(job: Job, input: seq<byte>, p: nat, w: nat, need: nat)
    requires job.Valid() && w + need <= 15
    requires w < LenAt(job.c, Ahead(input, p))
    ensures var k, r := LenAt(job.c, Ahead(input, p)), Look(job, input, p + w, w, need);
      if k <= w + need then r == Leaf(IndexAt(job.c, Ahead(input, p)), k - w)
      else r.Deeper? && 1 <= r.need
  {
    hide Low, Shr, Shl, Rev, Pow2, Peek, LenAt, RankAt, Off, Pos;
    var x, y := Ahead(input, p), Seen(input, p, w + need);
    SeenBelow(input, p, w + need);
    LenAtMono(job.c, y, x);
    if LenAt(job.c, y) <= w + need {
      HuftDecode.SameOwner(job, Tab(w, need, 0), y, x);
    } else {
      DeepCode(job, w + need, x, y);
    }
  }

  /** A lookup that does not see the whole code leads to a real table. */
  lemma DeepCode(job: Job, m: nat, x: nat, y: nat)
    requires job.Valid() && m <= 15 && y <= x < y + Pow2(15 - m) && Low(y, 15 - m) == 0 && x < Pow2(15)
    requires m < LenAt(job.c, y)
    ensures m < LenAt(job.c, x) && BitsAt(job, m, y) >= 1
  {
    hide Low, Shl, Shr, Pow2, LenAt, RankAt, Off, Pos;
    LenAtMono(job.c, y, x);
    OwnerOf(job.c, job.g, y);
  }

  /** Looking up table after table: the index found and the bits consumed from here on. */
  ghost function Read(job: Job, input: seq<byte>, bp: nat, w: nat, need: nat): (int, nat)
    requires job.g <= 15 && w <= bp && w + need <= 15
    decreases 15 - w - need
  {
    match Look(job, input, bp, w, need)
    case Leaf(i, bits) => (i, bits)
    case Deeper(n) => if n == 0 then (-1, 0) else var (i, k) := Read(job, input, bp + need, w + need, n); (i, need + k)
  }

  lemma {:induction false} ReadAhead(job: Job, input: seq<byte>, p: nat, w: nat, need: nat)
    requires job.Valid() && w + need <= 15 && w < LenAt(job.c, Ahead(input, p))
    ensures Read(job, input, p + w, w, need) == (IndexAt(job.c, Ahead(input, p)), LenAt(job.c, Ahead(input, p)) - w)
    decreases 15 - w - need
  {
    hide LenAt, IndexAt, Ahead, Look, BitsAt;
    LookAhead(job, input, p, w, need);
    var k := LenAt(job.c, Ahead(input, p));
    if k > w + need {
      ReadAhead(job, input, p, w + need, Look(job, input, p + w, w, need).need);
    }
  }

  /**
   * Whenever the stream continues with the code of symbol y, the
   * lookups find exactly y and consume exactly the bits of its code.
   */
  lemma ReadsSymbol(t: Tree, input: seq<byte>, p: nat, y: nat)
    requires t.Ok() && StartsWith(t.b, y, Peek(input, p, 15))
    ensures var (i, n) := Read(t.Job(), input, p, 0, Root(t)); 0 <= i < |t.Job().v| && t.Job().v[i] == y && n == t.b[y]
  {
    hide LenAt, IndexAt, Look, BitsAt, Peek, StartsWith, CountsOf, Over, Order, Off, Pos, Rev, Root;
    SymOwns(t.b, t.s, t.d, t.e, t.want, y, Peek(input, p, 15));
    LenAtPositive(t.Job().c, Ahead(input, p));
    ReadAhead(t.Job(), input, p, 0, Root(t));
  }

  lemma LenAtPositive(c: Counts, x: nat)
    ensures LenAt(c, x) >= 1
  {
  }

  /** Conversely, when they find a symbol, its code comes next in the stream. */
  lemma ReadIsCode(t: Tree, input: seq<byte>, p: nat) returns (y: nat)
    requires t.Ok() && 0 <= Read(t.Job(), input, p, 0, Root(t)).0 < |t.Job().v|
    ensures StartsWith(t.b, y, Peek(input, p, 15))
    ensures t.Job().v[Read(t.Job(), input, p, 0, Root(t)).0] == y && Read(t.Job(), input, p, 0, Root(t)).1 == t.b[y]
  {
    hide LenAt, IndexAt, Look, BitsAt, Peek, StartsWith, CountsOf, Over, Order, Off, Pos, Rev, Root, Pow2;
    LenAtPositive(t.Job().c, Ahead(input, p));
    ReadAhead(t.Job(), input, p, 0, Root(t));
    y := OwnerStarts(t.b, t.s, t.d, t.e, t.want, Peek(input, p, 15));
    ReadsSymbol(t, input, p, y);
  }

  /**
   * The code that owns the next bits is that of the symbol whose code they start with; an unused one if there is none.
   */
  lemma SymbolFound(t: Tree, input: seq<byte>, p: nat)
    requires t.Ok()
    ensures var y, i, k := Symbol(t.b, Peek(input, p, 15)), IndexAt(t.Job().c, Ahead(input, p)),
      LenAt(t.Job().c, Ahead(input, p));
      && i >= 0
      && (if i < |t.Job().v| then 0 <= y < |t.b| && t.Job().v[i] == y && t.b[y] == k else y < 0)
  {
    hide LenAt, RankAt, Peek, StartsWith, CountsOf, Over, Order, Off, Pos, Rev, Pow2, Symbol, Fill, Width;
    var job, q := t.Job(), Peek(input, p, 15);
    OwnerOf(job.c, job.g, Ahead(input, p));
    if Symbol(t.b, q) >= 0 {
      SymOwns(t.b, t.s, t.d, t.e, t.want, Symbol(t.b, q), q);
      SymbolInside(t, Symbol(t.b, q), q);
    } else if IndexAt(job.c, Ahead(input, p)) < |job.v| {
      var y := OwnerStarts(t.b, t.s, t.d, t.e, t.want, q);
    }
  }

  // ---- the code-length code ----

  /** Some code comes next unless the set is incomplete. */
  lemma CompleteFinds(t: Tree, input: seq<byte>, p: nat)
    requires t.Ok() && CanonicalCode.End(CountsOf(t.b), t.Job().g) == Pow2(t.Job().g)
    ensures Symbol(t.b, Peek(input, p, 15)) >= 0
  {
    hide LenAt, RankAt, Peek, StartsWith, CountsOf, Over, Pos, Rev, Pow2, Symbol, NextCode, Off, Order;
    var job, x := t.Job(), Ahead(input, p);
    JobValid(t.b, t.s, t.d, t.e, t.want);
    FillNothing(CountsOf(t.b), job.g);
    OwnerOf(job.c, job.g, x);
    OrderBelow(t.b, 15);
    OffMono(job.c, LenAt(job.c, x) + 1, 16);
    OffStep(job.c, LenAt(job.c, x));
    SymbolFound(t, input, p);
  }

  /**
   * In an accepted code-length code only that of a single symbol has
   * an unused pattern: one bit then always stands for that symbol.
   */
  lemma UnusedPattern(cl: seq<nat>, input: seq<byte>, p: nat) returns (y: nat)
    requires |cl| == 19 && Accept(BitsTree(cl)) && Symbol(cl, Peek(input, p, 15)) < 0
    ensures y < 19 && cl[y] == 1 && (forall z | 0 <= z < 19 && z != y :: cl[z] == 0)
    ensures BitsTree(cl).Job().g == 1 && BitsTree(cl).Job().v == [y]
  {
    hide LenAt, RankAt, Peek, StartsWith, CountsOf, Over, Pos, Rev, Pow2, Symbol, NextCode, Off, Order, TotalUsed;
    var t := BitsTree(cl);
    var job := t.Job();
    if CanonicalCode.End(CountsOf(cl), job.g) == Pow2(job.g) {
      CompleteFinds(t, input, p);
    }
    y := SingleCode(cl);
  }

  /** An accepted set that is not complete has a single symbol. */
  lemma SingleCode(cl: seq<nat>) returns (y: nat)
    requires |cl| == 19 && Accept(BitsTree(cl))
    requires CanonicalCode.End(CountsOf(cl), BitsTree(cl).Job().g) != Pow2(BitsTree(cl).Job().g)
    ensures y < 19 && cl[y] == 1 && (forall z | 0 <= z < 19 && z != y :: cl[z] == 0)
    ensures BitsTree(cl).Job().g == 1 && BitsTree(cl).Job().v == [y]
  {
    hide TotalUsed, Pos, Over, CountsOf, Order, SymsOf, Count, NextCode, Pow2, Off;
    var c := CountsOf(cl);
    JobValid(cl, 19, [], [], 7);
    FirstCode(c);
    CountAt(cl, 1);
    OrderAt(cl, 1, 0, 15);
    OrderBelow(cl, 15);
    OffEnd(c, 1, 16);
    y := Order(cl, 15)[0];
    MaxIsZero(cl);
    forall z | 0 <= z < 19 && z != y
      ensures cl[z] == 0
    {
      if cl[z] == 1 {
        SymAt(cl, z);
      }
    }
  }

  lemma FirstCode(c: Counts)
    ensures CanonicalCode.End(c, 1) == c[1] && Pow2(1) == 2 && Off(c, 1) == 0 && Off(c, 2) == c[1]
  {
  }

  /** The machine reads the code-length symbol whose code comes next, and the only one there is where none does. */
  lemma ReadSymIs(cl: seq<nat>, input: seq<byte>, p: nat)
    requires |cl| == 19 && (forall i | 0 <= i < 19 :: cl[i] <= 7) && Accept(BitsTree(cl))
    ensures var y := LengthSymbol(cl, Peek(input, p, 15)); y < 19 && ReadSym(input, p, cl) == (y, cl[y]) && cl[y] >= 1
  {
    hide LenAt, RankAt, Peek, StartsWith, CountsOf, Over, Pos, Rev, Pow2, Symbol, NextCode, Off, Order, Root, Look,
      IndexAt, TotalUsed;
    var t := BitsTree(cl);
    var job, x := t.Job(), Ahead(input, p);
    LengthFits.OneLevel(cl);
    LenAtPositive(job.c, x);
    LookAhead(job, input, p, 0, Root(t));
    OwnerOf(job.c, job.g, x);
    SymbolFound(t, input, p);
    if Symbol(cl, Peek(input, p, 15)) < 0 {
      var y := UnusedPattern(cl, input, p);
      assert LengthSymbol(cl, Peek(input, p, 15)) == y;
    }
  }

  /** In particular, where the code of symbol y comes next, y is read. */
  lemma ReadsLength(cl: seq<nat>, input: seq<byte>, p: nat, y: nat)
    requires |cl| == 19 && (forall i | 0 <= i < 19 :: cl[i] <= 7) && Accept(BitsTree(cl))
    requires StartsWith(cl, y, Peek(input, p, 15))
    ensures y < 19 && ReadSym(input, p, cl) == (y, cl[y])
  {
    hide Peek, StartsWith, Symbol, ReadSym, CountsOf, Over, TotalUsed;
    ReadSymIs(cl, input, p);
    SymbolIs(cl, 19, [], [], y, Peek(input, p, 15));
  }

  // ---- the machine's runs ----

  lemma RunNext(input: seq<byte>, base: seq<byte>, n: nat, a: AState, b: AState)
    requires |base| > 0 && Run(input, base, n) == Some(a) && WF(a) && Step(input, base, |input|, a) == Some(b)
    ensures Run(input, base, n + 1) == Some(b) && WF(b)
  {
    hide Step, WF;
    StepWF(input, base, |input|, a);
  }

  lemma StepLen(input: seq<byte>, base: seq<byte>, a: AState, lt: Tree, dt: Option<Tree>, w: nat, need: nat)
    requires |base| > 0 && WF(a) && a.mode == InCodes(lt, dt, Len(w, need))
    ensures CodesWF(lt, dt, Len(w, need), a.bp) && lt.Ok() && w <= a.bp && w + need <= 15
    ensures Step(input, base, |input|, a) == LenStep(input, |input|, a, lt, dt, w, need)
  {
    hide TreesWF, LenStep;
    TreesFacts(lt, dt);
  }

  /** How many bits are looked at, table after table. */
  ghost function Sees(job: Job, input: seq<byte>, bp: nat, w: nat, need: nat): (r: nat)
    requires job.g <= 15 && w <= bp && w + need <= 15
    ensures need <= r <= 15 - w
    decreases 15 - w - need
  {
    match Look(job, input, bp, w, need)
    case Leaf(_, _) => need
    case Deeper(n) => if n == 0 then need else need + Sees(job, input, bp + need, w + need, n)
  }

  ghost function TreeSees(t: Tree, input: seq<byte>, bp: nat, w: nat, need: nat): (r: nat)
    requires t.Ok() && w <= bp && w + need <= 15
    ensures need <= r <= 15 - w
  {
    RootFits(t);
    Sees(t.Job(), input, bp, w, need)
  }

  /** What symbol y stands for; none is invalid. */
  ghost function Stands(t: Tree, y: int): Sym
    requires t.Ok() && y < |t.b|
  {
    if y < 0 then Invalid
    else if y < t.s then (if y < 256 then Literal(y) else EndOfBlock)
    else if t.e[y - t.s] > 15 then Invalid
    else Extra(t.d[y - t.s], t.e[y - t.s])
  }

  /** The symbol that comes next at bit p. */
  ghost function NextSym(t: Tree, input: seq<byte>, p: nat): (y: int)
    ensures y < |t.b|
  {
    Symbol(t.b, Peek(input, p, 15))
  }

  lemma StandsFor(t: Tree, input: seq<byte>, p: nat)
    requires t.Ok()
    ensures TreeSym(t, IndexAt(t.Job().c, Ahead(input, p))) == Stands(t, NextSym(t, input, p))
    ensures NextSym(t, input, p) >= 0 ==> LenAt(t.Job().c, Ahead(input, p)) == t.b[NextSym(t, input, p)]
  {
    hide LenAt, IndexAt, Peek, CountsOf, Over, Order, Off, Pos, Symbol, Fill, Width;
    SymbolFound(t, input, p);
  }

  /** The bits that the next code takes. */
  ghost function CodeBits(t: Tree, input: seq<byte>, p: nat): nat
    requires t.Ok()
  {
    LenAt(t.Job().c, Ahead(input, p))
  }

  lemma CodeBitsIs(t: Tree, input: seq<byte>, p: nat)
    requires t.Ok()
    ensures CodeBits(t, input, p) == LenAt(t.Job().c, Ahead(input, p))
  {
  }

  /** The bits of the deeper table that a lookup leads to. */
  ghost function More(t: Tree, input: seq<byte>, bp: nat, w: nat, need: nat): (n: nat)
    requires t.Ok() && w <= bp && w + need <= 15
    ensures w + need + n <= 15
  {
    match TreeLook(t, input, bp, w, need)
    case Deeper(n) => n
    case Leaf(_, _) => 0
  }

  /** One lookup of tree t, seen from the start p of the code: it ends the code or leads to a table of r.need bits. */
  lemma Looks(t: Tree, input: seq<byte>, bp: nat, w: nat, need: nat, p: nat)
    requires t.Ok() && w <= bp && p == bp - w && w + need <= 15 && w < CodeBits(t, input, p)
    ensures var r, k := TreeLook(t, input, bp, w, need), CodeBits(t, input, p);
      if k <= w + need then
        r.Leaf? && r.bits == k - w && TreeSym(t, r.i) == Stands(t, NextSym(t, input, p))
        && TreeSees(t, input, bp, w, need) == need
      else
        r == Deeper(More(t, input, bp, w, need)) && r.need >= 1
        && TreeSees(t, input, bp, w, need) == need + TreeSees(t, input, bp + need, w + need, r.need)
  {
    hide LenAt, Ahead, Tree.Ok, Look, IndexAt, TreeSym, Stands, NextSym;
    LookAhead(t.Job(), input, p, w, need);
    StandsFor(t, input, p);
  }

  lemma LenLooks(input: seq<byte>, a: AState, lt: Tree, dt: Option<Tree>, w: nat, need: nat, p: nat)
    requires lt.Ok() && w <= a.bp && p == a.bp - w && w + need <= 15 && w < CodeBits(lt, input, p)
    ensures LenStep(input, |input|, a, lt, dt, w, need).Some? <==> Has(a.bp, need, |input|)
    ensures Has(a.bp, need, |input|) ==>
      LenStep(input, |input|, a, lt, dt, w, need).value == (
      if CodeBits(lt, input, p) <= w + need then
        a.(bp := p + CodeBits(lt, input, p), mode := InCodes(lt, dt, AfterLen(Stands(lt, NextSym(lt, input, p)))))
      else a.(bp := a.bp + need, mode := InCodes(lt, dt, Len(w + need, More(lt, input, a.bp, w, need)))))
  {
    hide More, Has, TreeSees, Peek, TreeLook, Tree.Ok, TreeSym, Stands, NextSym, CodeBits, AfterLen;
    Looks(lt, input, a.bp, w, need, p);
  }

  lemma DistLooks(input: seq<byte>, a: AState, lt: Tree, dt: Option<Tree>, len: nat, w: nat, need: nat, p: nat)
    requires dt.Some? && dt.value.Ok() && w <= a.bp && p == a.bp - w && w + need <= 15
    requires w < CodeBits(dt.value, input, p)
    ensures DistStep(input, |input|, a, lt, dt, len, w, need).Some? <==> Has(a.bp, need, |input|)
    ensures Has(a.bp, need, |input|) ==>
      DistStep(input, |input|, a, lt, dt, len, w, need).value == (
      if CodeBits(dt.value, input, p) <= w + need then
        a.(bp := p + CodeBits(dt.value, input, p),
           mode := InCodes(lt, dt, AfterDist(Stands(dt.value, NextSym(dt.value, input, p)), len)))
      else a.(bp := a.bp + need, mode := InCodes(lt, dt, Dist(len, w + need, More(dt.value, input, a.bp, w, need)))))
  {
    hide More, Has, TreeSees, Peek, TreeLook, Tree.Ok, TreeSym, Stands, NextSym, CodeBits, AfterDist;
    Looks(dt.value, input, a.bp, w, need, p);
  }

  lemma HasIs(p: nat, n: nat, limit: nat)
    ensures Has(p, n, limit) <==> p + n <= 8 * limit
  {
  }

  /** From a lookup after w bits the machine runs on to what the symbol stands for, if it has the bits to look at. */
  lemma {:induction false} LenRun(input: seq<byte>, base: seq<byte>, n: nat, a: AState, lt: Tree, dt: Option<Tree>,
                                  w: nat, need: nat)
    returns (m: nat)
    requires |base| > 0 && Run(input, base, n) == Some(a) && WF(a) && a.mode == InCodes(lt, dt, Len(w, need))
    requires lt.Ok() && w <= a.bp && w + need <= 15 && Has(a.bp, TreeSees(lt, input, a.bp, w, need), |input|)
    requires w < CodeBits(lt, input, a.bp - w)
    ensures m > n
    ensures var p := a.bp - w;
      Run(input, base, m) == Some(a.(bp := p + CodeBits(lt, input, p),
                                     mode := InCodes(lt, dt, AfterLen(Stands(lt, NextSym(lt, input, p))))))
    decreases 15 - w - need
  {
    hide *;
    var p := a.bp - w;
    StepLen(input, base, a, lt, dt, w, need);
    Looks(lt, input, a.bp, w, need, p);
    LenLooks(input, a, lt, dt, w, need, p);
    HasIs(a.bp, TreeSees(lt, input, a.bp, w, need), |input|);
    HasIs(a.bp, need, |input|);
    var b := LenStep(input, |input|, a, lt, dt, w, need).value;
    RunNext(input, base, n, a, b);
    m := n + 1;
    if CodeBits(lt, input, p) > w + need {
      var d := More(lt, input, a.bp, w, need);
      HasIs(b.bp, TreeSees(lt, input, b.bp, w + need, d), |input|);
      m := LenRun(input, base, n + 1, b, lt, dt, w + need, d);
    }
  }

  /** ... and stops within the code if it does not. */
  lemma {:induction false} LenStarves(input: seq<byte>, base: seq<byte>, n: nat, a: AState, lt: Tree, dt: Option<Tree>,
                                      w: nat, need: nat)
    returns (m: nat)
    requires |base| > 0 && Run(input, base, n) == Some(a) && WF(a) && a.mode == InCodes(lt, dt, Len(w, need))
    requires lt.Ok() && w <= a.bp && w + need <= 15 && !Has(a.bp, TreeSees(lt, input, a.bp, w, need), |input|)
    requires w < CodeBits(lt, input, a.bp - w)
    ensures m >= n && Run(input, base, m).Some? && Step(input, base, |input|, Run(input, base, m).value).None?
    decreases 15 - w - need
  {
    hide *;
    var p := a.bp - w;
    StepLen(input, base, a, lt, dt, w, need);
    Looks(lt, input, a.bp, w, need, p);
    LenLooks(input, a, lt, dt, w, need, p);
    HasIs(a.bp, TreeSees(lt, input, a.bp, w, need), |input|);
    HasIs(a.bp, need, |input|);
    m := n;
    if Has(a.bp, need, |input|) {
      var b := LenStep(input, |input|, a, lt, dt, w, need).value;
      RunNext(input, base, n, a, b);
      var d := More(lt, input, a.bp, w, need);
      HasIs(b.bp, TreeSees(lt, input, b.bp, w + need, d), |input|);
      m := LenStarves(input, base, n + 1, b, lt, dt, w + need, d);
    }
  }

  /**
   * At the start of a symbol the machine comes to what the symbol whose code is next stands for, having consumed
   * exactly its code, or to BadCode when no code is next; unless the input ends within the bits to be looked at.
   */
  lemma RunReadsSymbol(input: seq<byte>, base: seq<byte>, n: nat, a: AState, lt: Tree, dt: Option<Tree>)
    returns (m: nat)
    requires |base| > 0 && Run(input, base, n) == Some(a) && a.mode == InCodes(lt, dt, Start) && lt.Ok()
    ensures m > n
    ensures var y := NextSym(lt, input, a.bp);
      if !Has(a.bp, TreeSees(lt, input, a.bp, 0, Root(lt)), |input|) then
        Run(input, base, m).Some? && Step(input, base, |input|, Run(input, base, m).value).None?
      else if y >= 0 then
        Run(input, base, m) == Some(a.(bp := a.bp + lt.b[y], mode := InCodes(lt, dt, AfterLen(Stands(lt, y)))))
      else Run(input, base, m) == Some(a.(bp := a.bp + CodeBits(lt, input, a.bp), mode := InCodes(lt, dt, BadCode)))
  {
    hide WF, Run, Step, TreesWF, Tree.Ok, LenAt, Ahead, Look, TreeSym, IndexAt, Peek, Root, LenStep, NextSym;
    RunWF(input, base, n);
    var b := a.(mode := InCodes(lt, dt, Len(0, Root(lt))));
    StepStart(input, base, a, lt, dt);
    RunNext(input, base, n, a, b);
    LenAtPositive(lt.Job().c, Ahead(input, a.bp));
    CodeBitsIs(lt, input, a.bp);
    StandsFor(lt, input, a.bp);
    if Has(a.bp, TreeSees(lt, input, a.bp, 0, Root(lt)), |input|) {
      m := LenRun(input, base, n + 1, b, lt, dt, 0, Root(lt));
    } else {
      m := LenStarves(input, base, n + 1, b, lt, dt, 0, Root(lt));
    }
  }

  // ---- the same for distances ----

  lemma StepDist(input: seq<byte>, base: seq<byte>, a: AState, lt: Tree, dt: Option<Tree>, len: nat, w: nat, need: nat)
    requires |base| > 0 && WF(a) && a.mode == InCodes(lt, dt, Dist(len, w, need))
    ensures CodesWF(lt, dt, Dist(len, w, need), a.bp) && dt.Some? && dt.value.Ok() && w <= a.bp && w + need <= 15
    ensures Step(input, base, |input|, a) == DistStep(input, |input|, a, lt, dt, len, w, need)
  {
    hide TreesWF, DistStep;
    TreesFacts(lt, dt);
  }

  lemma {:induction false} DistRun(input: seq<byte>, base: seq<byte>, n: nat, a: AState, lt: Tree, dt: Option<Tree>,
                                   len: nat, w: nat, need: nat)
    returns (m: nat)
    requires |base| > 0 && Run(input, base, n) == Some(a) && WF(a) && a.mode == InCodes(lt, dt, Dist(len, w, need))
    requires dt.Some?
    requires dt.value.Ok() && w <= a.bp && w + need <= 15
    requires Has(a.bp, TreeSees(dt.value, input, a.bp, w, need), |input|)
    requires w < CodeBits(dt.value, input, a.bp - w)
    ensures m > n
    ensures var p, t := a.bp - w, dt.value;
      Run(input, base, m) == Some(a.(bp := p + CodeBits(t, input, p),
                                     mode := InCodes(lt, dt, AfterDist(Stands(t, NextSym(t, input, p)), len))))
    decreases 15 - w - need
  {
    hide *;
    var p, t := a.bp - w, dt.value;
    StepDist(input, base, a, lt, dt, len, w, need);
    Looks(t, input, a.bp, w, need, p);
    DistLooks(input, a, lt, dt, len, w, need, p);
    HasIs(a.bp, TreeSees(t, input, a.bp, w, need), |input|);
    HasIs(a.bp, need, |input|);
    var b := DistStep(input, |input|, a, lt, dt, len, w, need).value;
    RunNext(input, base, n, a, b);
    m := n + 1;
    if CodeBits(t, input, p) > w + need {
      var d := More(t, input, a.bp, w, need);
      HasIs(b.bp, TreeSees(t, input, b.bp, w + need, d), |input|);
      m := DistRun(input, base, n + 1, b, lt, dt, len, w + need, d);
    }
  }

  lemma {:induction false} DistStarves(input: seq<byte>, base: seq<byte>, n: nat, a: AState, lt: Tree, dt: Option<Tree>,
                                       len: nat, w: nat, need: nat)
    returns (m: nat)
    requires |base| > 0 && Run(input, base, n) == Some(a) && WF(a) && a.mode == InCodes(lt, dt, Dist(len, w, need))
    requires dt.Some?
    requires dt.value.Ok() && w <= a.bp && w + need <= 15
    requires !Has(a.bp, TreeSees(dt.value, input, a.bp, w, need), |input|)
    requires w < CodeBits(dt.value, input, a.bp - w)
    ensures m >= n && Run(input, base, m).Some? && Step(input, base, |input|, Run(input, base, m).value).None?
    decreases 15 - w - need
  {
    hide *;
    var p, t := a.bp - w, dt.value;
    StepDist(input, base, a, lt, dt, len, w, need);
    Looks(t, input, a.bp, w, need, p);
    DistLooks(input, a, lt, dt, len, w, need, p);
    HasIs(a.bp, TreeSees(t, input, a.bp, w, need), |input|);
    HasIs(a.bp, need, |input|);
    m := n;
    if Has(a.bp, need, |input|) {
      var b := DistStep(input, |input|, a, lt, dt, len, w, need).value;
      RunNext(input, base, n, a, b);
      var d := More(t, input, a.bp, w, need);
      HasIs(b.bp, TreeSees(t, input, b.bp, w + need, d), |input|);
      m := DistStarves(input, base, n + 1, b, lt, dt, len, w + need, d);
    }
  }

  /** A distance symbol, likewise. */
  lemma RunReadsDistance(input: seq<byte>, base: seq<byte>, n: nat, a: AState, lt: Tree, dt: Option<Tree>, len: nat)
    returns (m: nat)
    requires |base| > 0 && Run(input, base, n) == Some(a) && dt.Some? && dt.value.Ok()
    requires a.mode == InCodes(lt, dt, Dist(len, 0, Root(dt.value)))
    ensures m >= n
    ensures var t := dt.value; var y := NextSym(t, input, a.bp);
      if !Has(a.bp, TreeSees(t, input, a.bp, 0, Root(t)), |input|) then
        Run(input, base, m).Some? && Step(input, base, |input|, Run(input, base, m).value).None?
      else if y >= 0 then
        Run(input, base, m) == Some(a.(bp := a.bp + t.b[y], mode := InCodes(lt, dt, AfterDist(Stands(t, y), len))))
      else Run(input, base, m) == Some(a.(bp := a.bp + CodeBits(t, input, a.bp), mode := InCodes(lt, dt, BadCode)))
  {
    hide WF, Run, Step, TreesWF, Tree.Ok, LenAt, Ahead, Look, TreeSym, IndexAt, Peek, Root, DistStep, NextSym;
    var t := dt.value;
    RunWF(input, base, n);
    LenAtPositive(t.Job().c, Ahead(input, a.bp));
    CodeBitsIs(t, input, a.bp);
    StandsFor(t, input, a.bp);
    if Has(a.bp, TreeSees(t, input, a.bp, 0, Root(t)), |input|) {
      m := DistRun(input, base, n, a, lt, dt, len, 0, Root(t));
    } else {
      m := DistStarves(input, base, n, a, lt, dt, len, 0, Root(t));
    }
  }

  lemma SymbolInside(t: Tree, y: nat, p: nat)
    requires StartsWith(t.b, y, p)
    ensures y < |t.b|
  {
  }

  lemma RunWF(input: seq<byte>, base: seq<byte>, n: nat)
    requires |base| > 0 && Run(input, base, n).Some?
    ensures WF(Run(input, base, n).value)
  {
  }

  lemma StepStart(input: seq<byte>, base: seq<byte>, a: AState, lt: Tree, dt: Option<Tree>)
    requires |base| > 0 && WF(a) && lt.Ok() && a.mode == InCodes(lt, dt, Start)
    ensures Step(input, base, |input|, a) == Some(a.(mode := InCodes(lt, dt, Len(0, Root(lt)))))
  {
    hide TreesWF, LenStep, Root;
  }
}
