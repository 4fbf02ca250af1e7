/** inflate_trees_bits, inflate_trees_dynamic and inflate_trees_fixed of inftrees.c. */
module FixedTrees {
  import opened Arith
  import opened CanonicalCode
  import opened HuftSpec
  import opened HuftInvariant
  import opened HuftSteps
  import opened TableBuilder
  import opened InfTrees
  import opened HuftDecode
  import opened HuftSpace
  import opened CodeLengths
  import opened CodeSort
  import opened InflateTrees
  import opened TreeCallers

  /** Copy lengths and extra bits for symbols 257 on; 112 marks an invalid symbol. */
  const CPLENS: seq<nat> := [3, 4, 5, 6, 7, 8, 9, 10, 11, 13, 15, 17, 19, 23, 27, 31,
                             35, 43, 51, 59, 67, 83, 99, 115, 131, 163, 195, 227, 258, 0, 0]
  const CPLEXT: seq<nat> := [0, 0, 0, 0, 0, 0, 0, 0, 1, 1, 1, 1, 2, 2, 2, 2,
                             3, 3, 3, 3, 4, 4, 4, 4, 5, 5, 5, 5, 0, 112, 112]
  /** Copy offsets and extra bits for distance symbols. */
  const CPDIST: seq<nat> := [1, 2, 3, 4, 5, 7, 9, 13, 17, 25, 33, 49, 65, 97, 129, 193,
                             257, 385, 513, 769, 1025, 1537, 2049, 3073, 4097, 6145,
                             8193, 12289, 16385, 24577]
  const CPDEXT: seq<nat> := [0, 0, 0, 0, 1, 1, 2, 2, 3, 3, 4, 4, 5, 5, 6, 6,
                             7, 7, 8, 8, 9, 9, 10, 10, 11, 11,
                             12, 12, 13, 13]

  /** Lengths with the meaning of their symbols and the wanted lookup width. */
  datatype Tree = Tree(b: seq<nat>, s: nat, d: seq<nat>, e: seq<nat>, want: nat)
  {
    ghost predicate Ok() { Proper(b, s, d, e) }

    ghost function Job(): (job: HuftSpec.Job)
      requires Ok()
      ensures job.Valid()
    {
      TreeJob(b, s, d, e, want)
    }

    /** The tables of this tree stand in hp from t on. */
    ghost predicate In(hp: seq<Huft>, t: nat, hn: nat, tabs: Tabs)
      requires Ok()
    {
      TreeIn(b, s, d, e, want, hp, t, hn, tabs)
    }

    ghost predicate Empty() { Usable(b, s, d, e) && MaxLen(CountsOf(b), 15) == 0 }
  }

  /** The tree is accepted: its codes use up all patterns, or the longest has one bit. */
  ghost predicate Accept(t: Tree) {
    t.Ok() && (End(CountsOf(t.b), t.Job().g) == Pow2(t.Job().g) || t.Job().g == 1)
  }

  function BitsTree(b: seq<nat>): Tree { Tree(b, 19, [], [], 7) }

  function LitTree(b: seq<nat>): Tree { Tree(b, 257, CPLENS, CPLEXT, 9) }

  function DistTree(b: seq<nat>): Tree { Tree(b, 0, CPDIST, CPDEXT, 6) }

  /** With fewer than 2^(want+1) symbols an accepted code never asks for a table wider than its lookup. */
  lemma AcceptNoJump(t: Tree)
    requires Accept(t) && |t.b| < Pow2(t.want + 1)
    ensures NoJump(t.Job())
  {
    hide Pow2, Off, NextCode, Order, CountsOf, Over, Level, TotalUsed;
    var c, job := CountsOf(t.b), t.Job();
    JobValid(t.b, t.s, t.d, t.e, t.want);
    WidthOK(c, t.want);
    if job.l < job.g {
      FillNothing(c, job.g);
      TotalCount(t.b);
      Pow2Mono(t.want + 1, job.l + 1);
      FewCodes(job);
    }
  }

  /** ... and its shortest code is no longer than the wanted lookup, so the lookup is never wider than wanted. */
  lemma AcceptWidth(t: Tree)
    requires Accept(t) && |t.b| < Pow2(t.want + 1) && 1 <= t.want < 15
    ensures t.Job().l <= t.want
  {
    hide Pow2, Off, NextCode, Order, CountsOf, Over, Pos, TotalUsed;
    var c, job := CountsOf(t.b), t.Job();
    JobValid(t.b, t.s, t.d, t.e, t.want);
    WidthOK(c, t.want);
    if t.want < MinLen(c, 1) {
      FillNothing(c, job.g);
      TotalCount(t.b);
      LongCodes(c, job.g, t.want);
    }
  }

  /** A complete set of codes that are all longer than k has at least 2^(k+1) of them. */
  lemma LongCodes(c: Counts, g: nat, k: nat)
    requires Complete(c, g) && 1 <= k < 15 && forall j | 1 <= j <= k :: c[j] == 0
    ensures Off(c, 16) >= Pow2(k + 1)
  {
    hide Pow2, Off, Pos, Shl;
    NoneBelow(c, k);
    Tail(c, k, 15);
    CompletePos(c, g, 15);
    ShlPow2(k + 1, 14 - k);
    Pow2Pos(14 - k);
    var n := Off(c, 16) - Off(c, k + 1);
    if n < Pow2(k + 1) {
      ShlGap(n, Pow2(k + 1), 14 - k);
    }
  }

  /** No code reaches below the shortest length. */
  lemma {:induction false} NoneBelow(c: Counts, k: nat)
    requires k < 15 && forall j | 1 <= j <= k :: c[j] == 0
    ensures Pos(c, k) == 0
  {
    if k > 0 {
      NoneBelow(c, k - 1);
      PosNext(c, k);
    }
    ShlZero(15 - k);
  }

  lemma FillNothing(c: Counts, g: nat)
    requires 1 <= g <= 15 && End(c, g) == Pow2(g)
    ensures Fill(c, g) == c
  {
  }

  // ---- acceptance and space ----

  /** A tree is accepted just if its lengths make a complete code or a single one of one bit. */
  lemma AcceptIsDecodable(t: Tree)
    requires |t.b| > t.s ==> |t.b| - t.s <= |t.d| && |t.b| - t.s <= |t.e|
    ensures Accept(t) <==> Decodable(t.b)
  {
    hide Pow2, CountsOf, Over, Pos, NextCode, KraftSum, End, Order, OneBit;
    if Lengths(t.b) {
      var c := CountsOf(t.b);
      var g := MaxLen(c, 15);
      OverIsKraft(t.b);
      if g == 0 {
        NoKraft(t.b);
      } else {
        EndIsKraft(t.b, g);
        OneLength(t.b);
      }
    }
  }

  /** Without any code the Kraft sum is zero and no code has one bit. */
  lemma NoKraft(b: seq<nat>)
    requires Lengths(b) && MaxLen(CountsOf(b), 15) == 0
    ensures KraftSum(b) != Pow2(15) && !OneBit(b)
  {
    hide CountsOf, Off, Count;
    MaxIsZero(b);
    ZeroKraft(b);
  }

  lemma {:induction false} ZeroKraft(b: seq<nat>)
    requires forall i | 0 <= i < |b| :: b[i] == 0
    ensures KraftSum(b) == 0
  {
    if b != [] {
      ZeroKraft(b[..|b| - 1]);
    }
  }

  /** When no code is longer than one bit, either there are two and they are all patterns, or there is one. */
  lemma OneLength(b: seq<nat>)
    requires Lengths(b) && MaxLen(CountsOf(b), 15) > 0
    ensures OneBit(b) ==> MaxLen(CountsOf(b), 15) == 1 && !Over(CountsOf(b))
    ensures MaxLen(CountsOf(b), 15) == 1 && !Over(CountsOf(b)) ==> OneBit(b) || KraftSum(b) == Pow2(15)
  {
    hide CountsOf, Off, Count, SymsOf, KraftSum, Over, Pos, NextCode;
    var c := CountsOf(b);
    MaxIsZero(b);
    MaxUsed(b);
    if MaxLen(c, 15) == 1 {
      CountAt(b, 1);
      OverAtMax(c, 1);
      EndOne(c);
      EndIsKraft(b, 1);
      SymsBelow(b, 1);
      if c[1] == 1 {
        var y := SymsOf(b, 1)[0];
        forall z | 0 <= z < |b| && z != y
          ensures b[z] == 0
        {
          SymAt(b, z);
        }
      } else {
        TwoCodes(b);
      }
    }
  }

  lemma TwoCodes(b: seq<nat>)
    requires Count(b, 1) >= 2
    ensures !OneBit(b)
  {
    hide Count, SymsOf;
    SymsBelow(b, 1);
    var x, y := SymsOf(b, 1)[0], SymsOf(b, 1)[1];
    assert Count(b[..x], 1) == 0 && Count(b[..y], 1) == 1;
    assert x != y && b[x] == 1 && b[y] == 1;
  }

  lemma EndOne(c: Counts)
    ensures End(c, 1) == c[1] && Pow2(1) == 2
  {
  }

  /** Of a code with several tables, the filled counts are those of the symbols. */
  lemma AcceptFew(t: Tree)
    requires Accept(t) && t.Job().l < t.Job().g
    ensures Off(t.Job().c, 16) <= |t.b|
  {
    hide Pow2, Off, NextCode, Order, CountsOf, Over;
    var c, job := CountsOf(t.b), t.Job();
    JobValid(t.b, t.s, t.d, t.e, t.want);
    FillNothing(c, job.g);
    TotalCount(t.b);
  }

  /** An accepted code has a single table of at most 2^want entries, unless its lookup is as wide as wanted. */
  lemma AcceptShape(t: Tree)
    requires Accept(t) && |t.b| < Pow2(t.want + 1) && 1 <= t.want < 15
    ensures NoJump(t.Job())
    ensures t.Job().l == t.Job().g ==> TotalUsed(t.Job()) <= Pow2(t.want)
    ensures t.Job().l < t.Job().g ==> t.Job().l == t.want && Off(t.Job().c, 16) <= |t.b|
  {
    hide Pow2, Off, NextCode, Order, CountsOf, Over, Pos, NoJump, TotalUsed, Accept, Fill;
    AcceptProper(t);
    AcceptNoJump(t);
    AcceptWidth(t);
    var job := t.Job();
    JobValid(t.b, t.s, t.d, t.e, t.want);
    WidthOK(CountsOf(t.b), t.want);
    if job.l == job.g {
      SingleTable(job);
      Pow2Mono(job.l, t.want);
    } else {
      AcceptFew(t);
    }
  }

  lemma AcceptProper(t: Tree)
    requires Accept(t)
    ensures t.Ok() && Usable(t.b, t.s, t.d, t.e) && MaxLen(CountsOf(t.b), 15) > 0 && !Over(CountsOf(t.b))
  {
  }

  /** The code-length code never needs more than 128 entries of table space, ... */
  lemma BitsSpace(c: seq<nat>)
    requires |c| == 19 && (forall i | 0 <= i < 19 :: c[i] <= 7) && Accept(BitsTree(c))
    ensures TotalUsed(BitsTree(c).Job()) <= 128
  {
    hide Pow2, Off, NextCode, Order, CountsOf, Over, Pos, NoJump, TotalUsed, Accept, Fill;
    Small();
    AcceptProper(BitsTree(c));
    AcceptShape(BitsTree(c));
    MaxUsed(c);
    WidthOK(CountsOf(c), 7);
  }

  /** ... a literal/length code no more than 926, */
  lemma LitSpace(ll: seq<nat>)
    requires |ll| <= 286 && Accept(LitTree(ll))
    ensures TotalUsed(LitTree(ll).Job()) <= 926
  {
    hide Pow2, Off, NextCode, Order, CountsOf, Over, Pos, NoJump, TotalUsed, Accept, Fill;
    Small();
    AcceptProper(LitTree(ll));
    AcceptShape(LitTree(ll));
    if LitTree(ll).Job().l < LitTree(ll).Job().g {
      SpaceTwo(LitTree(ll).Job());
    }
  }

  /** ... and a distance code no more than 268: together they are far from MANY. */
  lemma DistSpace(dl: seq<nat>)
    requires |dl| <= 30 && Accept(DistTree(dl))
    ensures TotalUsed(DistTree(dl).Job()) <= 268
  {
    hide Pow2, Off, NextCode, Order, CountsOf, Over, Pos, NoJump, TotalUsed, Accept, Fill;
    Small();
    AcceptProper(DistTree(dl));
    AcceptShape(DistTree(dl));
    if DistTree(dl).Job().l < DistTree(dl).Job().g {
      SpaceThree(DistTree(dl).Job());
    }
  }

  // ---- the trees of a dynamic block ----

  /** What huft_build leaves for a tree that is not over-subscribed and does not jump. */
  lemma BuiltTree(t: Tree, hp0: seq<Huft>, hn: nat, hp: seq<Huft>, r: Ret, o: Option<nat>, m: nat, hn': nat, tabs: Tabs)
    requires t.Ok() && Outcome(t.b, t.s, t.d, t.e, t.want, hp0, hn, hp, r, o, m, hn', tabs) && NoJump(t.Job())
    requires hn + TotalUsed(t.Job()) <= MANY
    ensures o == Some(hn) && t.In(hp, hn, hn', tabs) && m == Width(CountsOf(t.b), t.want)
    ensures hn' == hn + TotalUsed(t.Job())
    ensures hn' <= |hp| == |hp0| && forall a | 0 <= a < hn :: hp[a] == hp0[a]
  {
    hide Built, Untouched, NoJump, TotalUsed, Width, CountsOf, Over, Narrow, Pos, Off, Fill, Order, NextCode, Pow2;
    BuiltFacts(t.Job(), hp0, hp, tabs, hn, hn');
  }

  lemma BuiltFacts(job: Job, hp0: seq<Huft>, hp: seq<Huft>, tabs: Tabs, hn: nat, hn': nat)
    requires job.Valid() && Built(job, hp, tabs, hn, hn') && Untouched(job, hp0, hp, tabs, hn, hn') && NoJump(job)
    ensures Narrow(job, tabs) && hn' <= |hp| == |hp0| && forall a | 0 <= a < hn :: hp[a] == hp0[a]
  {
    hide NoJump, Narrow, AllRight, Pos, Off, TabOK;
    NarrowIffNoJump(job, hp, tabs, hn, hn');
  }

  /** Tables built later leave earlier ones as they were. */
  lemma TreeKept(t: Tree, hp: seq<Huft>, hp': seq<Huft>, a: nat, hn: nat, tabs: Tabs)
    requires t.Ok() && t.In(hp, a, hn, tabs)
    requires hn <= |hp| && hn <= |hp'| && forall i | 0 <= i < hn :: hp'[i] == hp[i]
    ensures t.In(hp', a, hn, tabs)
  {
    hide Narrow, Pos, Off, TabOK, SlotOK, Pow2, CountsOf, Over, JobOf;
    var job := t.Job();
    forall b | b in tabs
      ensures TabOK(job, tabs[b]) && tabs[b].Fits()
    {
      TabFacts(job, tabs[b]);
    }
    forall b, idx: nat | b in tabs && idx < Pow2(tabs[b].Part(job.l).j) && b + idx < |hp'|
      ensures SlotOK(job, hp', tabs, b, idx)
    {
      Pow2Mono(tabs[b].Part(job.l).j, tabs[b].j);
      SlotSame(job, hp, hp', tabs, b, idx);
    }
  }

  lemma SlotSame(job: Job, hp: seq<Huft>, hp': seq<Huft>, tabs: Tabs, b: nat, idx: nat)
    requires job.Valid() && b in tabs && tabs[b].Fits() && b + idx < |hp| && b + idx < |hp'|
    requires SlotOK(job, hp, tabs, b, idx) && hp'[b + idx] == hp[b + idx]
    ensures SlotOK(job, hp', tabs, b, idx)
  {
    hide LeafOK, LinkOK;
  }

  /** The code-length code of a dynamic block. */
  method InflateTreesBits(c: seq<nat>, hp: array<Huft>)
    returns (r: Ret, bb: nat, tb: nat, ghost hn: nat, ghost tabs: Tabs)
    requires |c| == 19 && (forall i | 0 <= i < 19 :: c[i] <= 7) && hp.Length >= MANY
    modifies hp
    ensures r == Z_OK || r == Z_DATA_ERROR
    ensures r == Z_OK <==> Accept(BitsTree(c))
    ensures r == Z_OK <==> Decodable(c)
    ensures r == Z_OK ==> BitsTree(c).In(hp[..], tb, hn, tabs) && bb == Width(CountsOf(c), 7)
  {
    hide Built, Untouched, NoJump, TotalUsed, JobOf, Width, CountsOf, Over, Pos, Off, End, Decodable;
    ghost var hp0 := hp[..];
    var v := new nat[19](_ => 0);
    var t;
    ghost var log;
    r, t, bb, hn, tabs, log := HuftBuild(c, 19, [], [], 7, hp, 0, v);
    ResultIs(BitsTree(c), hp0, 0, hp[..], r, t, bb, hn, tabs);
    if Accept(BitsTree(c)) {
      BitsSpace(c);
    }
    if r == Z_BUF_ERROR || (r == Z_OK && bb == 0) {
      r := Z_DATA_ERROR;
    }
    tb := if t.Some? then t.value else 0;
    Small();
    AcceptIsDecodable(BitsTree(c));
    if r == Z_OK {
      AcceptNoJump(BitsTree(c));
      BuiltTree(BitsTree(c), hp0, 0, hp[..], r, t, bb, hn, tabs);
    }
  }

  lemma Small()
    ensures Pow2(3) == 8 && Pow2(6) == 64 && Pow2(7) == 128 && Pow2(8) == 256 && Pow2(9) == 512 && Pow2(10) == 1024
  {
  }

  /** When huft_build reports success. */
  lemma ResultIs(t: Tree, hp0: seq<Huft>, hn: nat, hp: seq<Huft>, r: Ret, o: Option<nat>, m: nat, hn': nat, tabs: Tabs)
    requires Usable(t.b, t.s, t.d, t.e) && Outcome(t.b, t.s, t.d, t.e, t.want, hp0, hn, hp, r, o, m, hn', tabs)
    ensures r != Z_STREAM_END
    ensures t.Empty() ==> r == Z_OK && m == 0 && o == None && hp == hp0 && hn' == hn && !Accept(t)
    ensures !t.Empty() ==> (r == Z_OK <==> Accept(t) && hn + TotalUsed(t.Job()) <= MANY)
    ensures r == Z_OK && !t.Empty() ==> m > 0 && o.Some? && hn' == hn + TotalUsed(t.Job())
  {
    hide Built, Untouched, NoJump, TotalUsed, CountsOf, Over, Pos, Off, NextCode, Pow2;
    if t.Ok() {
      JobValid(t.b, t.s, t.d, t.e, t.want);
      WidthOK(CountsOf(t.b), t.want);
    }
  }

  /** A dynamic block's lengths are accepted: no distance code at all is fine when there are no length symbols. */
  ghost predicate DynAccept(ll: seq<nat>, dl: seq<nat>) {
    Accept(LitTree(ll)) && (if DistTree(dl).Empty() then |ll| <= 257 else Accept(DistTree(dl)))
  }

  lemma DynIsDecodable(ll: seq<nat>, dl: seq<nat>)
    requires |ll| <= 286 && |dl| <= 30
    ensures DynAccept(ll, dl) <==> DecodablePair(ll, dl) && TrimmedPair(ll, dl)
  {
    hide Accept, Decodable, CountsOf, Off, NoCode;
    AcceptIsDecodable(LitTree(ll));
    AcceptIsDecodable(DistTree(dl));
    NothingIs(dl);
    if Accept(DistTree(dl)) {
      AcceptProper(DistTree(dl));
    }
  }

  lemma NothingIs(dl: seq<nat>)
    requires |dl| <= 30
    ensures DistTree(dl).Empty() <==> NoCode(dl)
  {
    hide CountsOf, Off;
    if Lengths(dl) {
      MaxIsZero(dl);
      if MaxLen(CountsOf(dl), 15) > 0 {
        MaxUsed(dl);
      }
    }
  }

  /** The space is enough for every pair of codes that a dynamic block may have. */
  lemma SpaceEnough(ll: seq<nat>, dl: seq<nat>)
    requires |ll| <= 286 && |dl| <= 30 && Decodable(ll) && Decodable(dl)
    ensures LitTree(ll).Ok() && DistTree(dl).Ok()
    ensures TotalUsed(LitTree(ll).Job()) + TotalUsed(DistTree(dl).Job()) <= 1194 < MANY
  {
    hide Accept, Decodable, TotalUsed, Tree.Job;
    AcceptIsDecodable(LitTree(ll));
    AcceptIsDecodable(DistTree(dl));
    AcceptProper(LitTree(ll));
    AcceptProper(DistTree(dl));
    LitSpace(ll);
    DistSpace(dl);
  }

  method InflateTreesDynamic(ll: seq<nat>, dl: seq<nat>, hp: array<Huft>)
    returns (r: Ret, bl: nat, bd: nat, tl: nat, td: Option<nat>, ghost hn: nat, ghost hn': nat, ghost tabs: Tabs,
             ghost tabs': Tabs)
    requires 257 <= |ll| <= 286 && 1 <= |dl| <= 30 && Lengths(ll) && Lengths(dl) && hp.Length >= MANY
    modifies hp
    ensures r == Z_OK || r == Z_DATA_ERROR
    ensures r == Z_OK <==> DynAccept(ll, dl)
    ensures r == Z_OK <==> DecodablePair(ll, dl) && TrimmedPair(ll, dl)
    ensures r == Z_OK ==> LitTree(ll).In(hp[..], tl, hn, tabs) && bl == Width(CountsOf(ll), 9)
    ensures r == Z_OK ==> (td == None <==> DistTree(dl).Empty())
    ensures r == Z_OK && td.Some? ==> DistTree(dl).In(hp[..], td.value, hn', tabs') && bd == Width(CountsOf(dl), 6)
  {
    hide Built, Untouched, NoJump, TotalUsed, JobOf, Width, CountsOf, Over, Pos, Off, End, Accept,
      DecodablePair, TrimmedPair;
    var v := new nat[288](_ => 0);
    ghost var hp0 := hp[..];
    var lt, dt := LitTree(ll), DistTree(dl);
    Small();
    DynIsDecodable(ll, dl);
    var t;
    bl, bd, tl, td, hn, hn', tabs, tabs' := 0, 0, 0, None, 0, 0, map[], map[];
    var n;
    ghost var log, log';
    r, t, bl, n, tabs, log := HuftBuild(ll, 257, CPLENS, CPLEXT, 9, hp, 0, v);
    hn := n;
    ResultIs(lt, hp0, 0, hp[..], r, t, bl, hn, tabs);
    if Accept(lt) {
      LitSpace(ll);
    }
    if r != Z_OK || bl == 0 {
      r := Z_DATA_ERROR;
      return;
    }
    AcceptNoJump(lt);
    BuiltTree(lt, hp0, 0, hp[..], r, t, bl, hn, tabs);
    tl := t.value;
    ghost var hp1 := hp[..];
    var n';
    r, td, bd, n', tabs', log' := HuftBuild(dl, 0, CPDIST, CPDEXT, 6, hp, n, v);
    hn' := n';
    ResultIs(dt, hp1, hn, hp[..], r, td, bd, hn', tabs');
    if Accept(dt) {
      DistSpace(dl);
    }
    if r != Z_OK || (bd == 0 && |ll| > 257) {
      r := Z_DATA_ERROR;
      return;
    }
    if td.Some? {
      AcceptNoJump(dt);
      BuiltTree(dt, hp1, hn, hp[..], r, td, bd, hn', tabs');
    }
    TreeKept(lt, hp1, hp[..], tl, hn, tabs);
  }

  // ---- the fixed trees ----

  function Const(n: nat, x: nat): seq<nat> {
    if n == 0 then [] else Const(n - 1, x) + [x]
  }

  /** Section 3.2.6 of RFC 1951: lengths of the fixed literal/length code. */
  function FixedLit(): seq<nat> {
    ((Const(144, 8) + Const(112, 9)) + Const(24, 7)) + Const(8, 8)
  }

  /** ... and of the fixed distance code, whose last two symbols are left out. */
  function FixedDist(): seq<nat> {
    Const(30, 5)
  }

  function FixedLitTree(): Tree { Tree(FixedLit(), 257, CPLENS, CPLEXT, 9) }

  function FixedDistTree(): Tree { Tree(FixedDist(), 0, CPDIST, CPDEXT, 5) }

  lemma {:induction false} ConstAt(n: nat, x: nat)
    ensures |Const(n, x)| == n && forall i | 0 <= i < n :: Const(n, x)[i] == x
  {
    if n > 0 {
      ConstAt(n - 1, x);
    }
  }

  lemma {:induction false} KraftRun(a: seq<nat>, n: nat, x: nat)
    requires 1 <= x <= 15
    ensures KraftSum(a + Const(n, x)) == KraftSum(a) + n * Pow2(15 - x)
  {
    hide KraftSum, Pow2;
    if n == 0 {
      assert a + Const(0, x) == a;
    } else {
      KraftRun(a, n - 1, x);
      assert a + Const(n, x) == (a + Const(n - 1, x)) + [x];
      KraftAppend(a + Const(n - 1, x), x);
    }
  }

  lemma KraftAppend(a: seq<nat>, x: nat)
    requires 1 <= x <= 15
    ensures KraftSum(a + [x]) == KraftSum(a) + Pow2(15 - x)
  {
    hide Pow2;
    assert (a + [x])[..|a|] == a;
  }

  lemma FixedKraft()
    ensures KraftSum(FixedLit()) == 32768 && KraftSum(FixedDist()) == 30720
  {
    hide Const, KraftSum;
    Weights();
    KraftRun([], 144, 8);
    KraftRun([] + Const(144, 8), 112, 9);
    KraftRun(([] + Const(144, 8)) + Const(112, 9), 24, 7);
    KraftRun((([] + Const(144, 8)) + Const(112, 9)) + Const(24, 7), 8, 8);
    KraftRun([], 30, 5);
    KraftNone();
    assert [] + Const(144, 8) == Const(144, 8);
    assert [] + Const(30, 5) == Const(30, 5);
  }

  lemma KraftNone()
    ensures KraftSum([]) == 0
  {
  }

  lemma Weights()
    ensures Pow2(6) == 64 && Pow2(7) == 128 && Pow2(8) == 256 && Pow2(10) == 1024 && Pow2(15) == 32768
  {
  }

  lemma FixedLitLengths()
    ensures |FixedLit()| == 288 && FixedLit()[255] == 9
    ensures forall i | 0 <= i < 288 :: 7 <= FixedLit()[i] <= 9
  {
    hide Const;
    ConstAt(144, 8);
    ConstAt(112, 9);
    ConstAt(24, 7);
    ConstAt(8, 8);
  }

  /** A tree whose longest length is m, none over-subscribed. */
  lemma LongestIs(b: seq<nat>, m: nat)
    requires Lengths(b) && (exists i :: 0 <= i < |b| && b[i] == m) && (forall i | 0 <= i < |b| :: b[i] <= m)
    requires 1 <= m
    ensures MaxLen(CountsOf(b), 15) == m
  {
    hide CountsOf;
    MaxIsZero(b);
    if MaxLen(CountsOf(b), 15) > 0 {
      MaxUsed(b);
    }
  }

  lemma FixedOk()
    ensures FixedLitTree().Ok() && FixedDistTree().Ok()
    ensures MaxLen(CountsOf(FixedLit()), 15) == 9 && MaxLen(CountsOf(FixedDist()), 15) == 5
    ensures Usable(FixedLit(), 257, CPLENS, CPLEXT) && |FixedLit()| == 288
    ensures Usable(FixedDist(), 0, CPDIST, CPDEXT) && |FixedDist()| == 30
    ensures forall i | 0 <= i < 30 :: FixedDist()[i] == 5
  {
    hide Const, KraftSum, CountsOf, Over, Pow2, FixedLit;
    FixedLitLengths();
    FixedKraft();
    ConstAt(30, 5);
    LongestIs(FixedLit(), 9);
    assert FixedDist()[0] == 5;
    LongestIs(FixedDist(), 5);
    Weights();
    OverIsKraft(FixedLit());
    OverIsKraft(FixedDist());
  }

  /** The two fixed trees need one table each, of 512 and 32 entries. */
  lemma FixedSizes()
    ensures FixedLitTree().Ok() && FixedDistTree().Ok()
    ensures NoJump(FixedLitTree().Job()) && TotalUsed(FixedLitTree().Job()) == 512
    ensures Width(CountsOf(FixedLit()), 9) == 9
    ensures NoJump(FixedDistTree().Job()) && TotalUsed(FixedDistTree().Job()) == 32
    ensures Width(CountsOf(FixedDist()), 5) == 5
  {
    hide Const, CountsOf, Over, Pow2, FixedLit, FixedDist, TotalUsed, NoJump;
    FixedOk();
    JobValid(FixedLit(), 257, CPLENS, CPLEXT, 9);
    JobValid(FixedDist(), 0, CPDIST, CPDEXT, 5);
    MinBelowMax(CountsOf(FixedLit()));
    MinBelowMax(CountsOf(FixedDist()));
    SingleTable(FixedLitTree().Job());
    SingleTable(FixedDistTree().Job());
    FixedPowers();
  }

  lemma FixedPowers()
    ensures Pow2(9) == 512 && Pow2(5) == 32
  {
  }

  const FIXEDH: nat := 544

  /** Builds the fixed tables; they fill fixed_mem exactly. */
  method InflateTreesFixed()
    returns (bl: nat, bd: nat, mem: array<Huft>, tl: nat, td: nat, ghost tabs: Tabs, ghost tabs': Tabs)
    ensures fresh(mem) && mem.Length == FIXEDH && bl == 9 && bd == 5
    ensures FixedLitTree().Ok() && FixedLitTree().In(mem[..], tl, 512, tabs)
    ensures FixedDistTree().Ok() && FixedDistTree().In(mem[..], td, FIXEDH, tabs')
  {
    hide Built, Untouched, NoJump, TotalUsed, JobOf, Width, CountsOf, Over, Pos, Off, End, Accept, Const, FixedLit,
      FixedDist;
    mem := new Huft[FIXEDH](_ => Huft(0, 0, 0));
    var v := new nat[288](_ => 0);
    FixedOk();
    FixedSizes();
    FixedPowers();
    FixedLitLengths();
    ghost var hp0 := mem[..];
    var r, t, n, n';
    ghost var log, log';
    r, t, bl, n, tabs, log := HuftBuild(FixedLit(), 257, CPLENS, CPLEXT, 9, mem, 0, v);
    BuiltTree(FixedLitTree(), hp0, 0, mem[..], r, t, bl, n, tabs);
    tl := t.value;
    ghost var hp1 := mem[..];
    r, t, bd, n', tabs', log' := HuftBuild(FixedDist(), 0, CPDIST, CPDEXT, 5, mem, n, v);
    BuiltTree(FixedDistTree(), hp1, n, mem[..], r, t, bd, n', tabs');
    td := t.value;
    TreeKept(FixedLitTree(), hp1, mem[..], tl, n, tabs);
  }

  // ---- lengths that the format allows and inflate rejects ----

  /** The literal 0 and the end of the block have one bit each; the length of one more symbol is sent as zero. */
  function LiteralOnly(): seq<nat> { (([1] + Const(255, 0)) + [1]) + [0] }

  lemma {:induction false} KraftZeros(a: seq<nat>, n: nat)
    ensures KraftSum(a + Const(n, 0)) == KraftSum(a)
  {
    hide Pow2;
    if n == 0 {
      assert a + Const(0, 0) == a;
    } else {
      KraftZeros(a, n - 1);
      assert a + Const(n, 0) == (a + Const(n - 1, 0)) + [0];
      assert (a + Const(n, 0))[..|a + Const(n - 1, 0)|] == a + Const(n - 1, 0);
    }
  }

  lemma LiteralOnlyKraft()
    ensures KraftSum(LiteralOnly()) == Pow2(15)
  {
    hide Const, KraftSum, Pow2;
    KraftNone();
    KraftAppend([], 1);
    assert [] + [1] == [1];
    KraftZeros([1], 255);
    KraftAppend([1] + Const(255, 0), 1);
    KraftZeros(([1] + Const(255, 0)) + [1], 1);
    ConstAt(1, 0);
    assert Const(1, 0) == [0];
    DoublePow2(14);
  }

  lemma LiteralOnlyIs()
    ensures |LiteralOnly()| == 258 && Lengths(LiteralOnly()) && LiteralOnly()[257] == 0
    ensures DecodablePair(LiteralOnly(), [0]) && !TrimmedPair(LiteralOnly(), [0])
  {
    hide Const, KraftSum, Pow2;
    ConstAt(255, 0);
    LiteralOnlyKraft();
  }

  /** Data of literals only needs no distance code, yet with 258 lengths inflate rejects it. */
  method RejectLiterals(hp: array<Huft>) returns (r: Ret)
    requires hp.Length >= MANY
    modifies hp
    ensures r == Z_DATA_ERROR && DecodablePair(LiteralOnly(), [0])
  {
    hide *;
    LiteralOnlyIs();
    ZeroLengths();
    var bl, bd, tl, td;
    ghost var hn, hn', tabs, tabs';
    r, bl, bd, tl, td, hn, hn', tabs, tabs' := InflateTreesDynamic(LiteralOnly(), [0], hp);
  }

  lemma ZeroLengths()
    ensures Lengths([0])
  {
  }

  /** So is the one of symbol 0 among 31 distance lengths. */
  lemma ManyDistances()
    ensures DecodablePair(LiteralOnly(), [1] + Const(30, 0)) && !TrimmedPair(LiteralOnly(), [1] + Const(30, 0))
  {
    hide Const, KraftSum, Pow2, LiteralOnly;
    LiteralOnlyIs();
    ConstAt(30, 0);
    var dl := [1] + Const(30, 0);
    assert dl[0] == 1;
    assert OneBit(dl);
  }
}
