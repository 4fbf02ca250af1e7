/** What the tables of huft_build decode, and the three callers in inftrees.c. */
module TreeCallers {
  import opened Arith
  import opened CanonicalCode
  import opened HuftSpec
  import opened HuftInvariant
  import opened HuftSteps
  import opened TableBuilder
  import opened InfTrees
  import opened HuftDecode
  import opened CodeLengths
  import opened CodeSort
  import opened InflateTrees

  /** Step 3 of section 3.2.2 of RFC 1951: codes of one length are consecutive, in symbol order. */
  function SymCode(b: seq<nat>, y: nat): nat
    requires y < |b| && b[y] <= 15
  {
    NextCode(CountsOf(b), b[y]) + Count(b[..y], b[y])
  }

  /** The operation byte of a symbol's entry. */
  function SymExop(s: nat, e: seq<nat>, y: nat): nat
    requires y >= s ==> y - s < |e|
  {
    if y < s then (if y < 256 then 0 else 96) else e[y - s] + 80
  }

  /** The base value of a symbol's entry. */
  function SymBase(s: nat, d: seq<nat>, y: nat): nat
    requires y >= s ==> y - s < |d|
  {
    if y < s then y else d[y - s]
  }

  /** The bits p, first bit lowest, start with the code of symbol y. */
  predicate StartsWith(b: seq<nat>, y: nat, p: nat) {
    y < |b| && 1 <= b[y] <= 15 && Rev(p, b[y]) == SymCode(b, y)
  }

  /** The lengths are not over-subscribed and some are not zero. */
  ghost predicate Proper(b: seq<nat>, s: nat, d: seq<nat>, e: seq<nat>) {
    Usable(b, s, d, e) && MaxLen(CountsOf(b), 15) > 0 && !Over(CountsOf(b))
  }

  /** The code generator's job for proper lengths. */
  ghost function TreeJob(b: seq<nat>, s: nat, d: seq<nat>, e: seq<nat>, want: nat): (job: Job)
    requires Proper(b, s, d, e)
    ensures job.Valid()
  {
    JobValid(b, s, d, e, want);
    JobOf(b, s, d, e, want)
  }

  /** The code of symbol y owns the strings that start with it. */
  lemma SymOwns(b: seq<nat>, s: nat, d: seq<nat>, e: seq<nat>, want: nat, y: nat, p: nat)
    requires Proper(b, s, d, e) && StartsWith(b, y, p)
    ensures var job, x := TreeJob(b, s, d, e, want), Rev(p, 15);
      && LenAt(job.c, x) == b[y] && 0 <= IndexAt(job.c, x) < |job.v| && job.v[IndexAt(job.c, x)] == y
  {
    hide CountsOf, Off, Order, Pow2, Rev, Shl, LenAt, RankAt, Count, NextCode, SymsOf, Over, Pos;
    var c, job := CountsOf(b), TreeJob(b, s, d, e, want);
    JobValid(b, s, d, e, want);
    var k, r := b[y], Count(b[..y], b[y]);
    MaxIsZero(b);
    FillComplete(c, job.g);
    SymAt(b, y);
    CountAt(b, k);
    OrderAt(b, k, r, 15);
    RevSplit(p, k, 15 - k);
    RevLess(Shr(p, k), 15 - k);
    OwnedBy(job.c, k, r, Rev(p, 15));
  }

  /** Conversely, a string owned by a real code starts with that symbol's code. */
  lemma OwnerStarts(b: seq<nat>, s: nat, d: seq<nat>, e: seq<nat>, want: nat, p: nat) returns (y: nat)
    requires Proper(b, s, d, e) && p < Pow2(15)
    requires var job := TreeJob(b, s, d, e, want); 0 <= IndexAt(job.c, Rev(p, 15)) < |job.v|
    ensures StartsWith(b, y, p)
  {
    hide CountsOf, Off, Order, Pow2, Rev, Shl, LenAt, RankAt, Count, NextCode, SymsOf, Over, Pos;
    var c, job := CountsOf(b), TreeJob(b, s, d, e, want);
    JobValid(b, s, d, e, want);
    var x := Rev(p, 15);
    RevLess(p, 15);
    OwnerOf(job.c, job.g, x);
    var k, r := LenAt(job.c, x), RankAt(job.c, x);
    FillComplete(c, job.g);
    CountAt(b, k);
    RealRank(b, job.g, k, r);
    OrderAt(b, k, r, 15);
    y := Order(b, 15)[Off(c, k) + r];
    RevSplit(p, k, 15 - k);
    RevLess(Shr(p, k), 15 - k);
    SplitUnique(x, 15 - k, Rev(Shr(p, k), 15 - k), Rev(p, k));
    SplitUnique(x, 15 - k, x - Shl(NextCode(c, k) + r, 15 - k), NextCode(c, k) + r);
  }

  /** A rank whose index falls inside the symbol list belongs to a real code. */
  lemma RealRank(b: seq<nat>, g: nat, k: nat, r: nat)
    requires Lengths(b) && 1 <= k <= g <= 15 && g == MaxLen(CountsOf(b), 15)
    requires k < g ==> r < Count(b, k)
    requires k == g ==> Off(CountsOf(b), k) + r < |Order(b, 15)|
    ensures r < Count(b, k)
  {
    hide CountsOf, Off, Order, Count;
    OrderBelow(b, 15);
    CountAt(b, k);
    if k == g {
      OffEnd(CountsOf(b), g, 16);
      OffStep(CountsOf(b), g);
    }
  }

  lemma {:induction false} OffEnd(c: Counts, g: nat, k: nat)
    requires g < k <= 16 && forall j | g < j <= 15 :: c[j] == 0
    ensures Off(c, k) == Off(c, g + 1)
    decreases k
  {
    if g + 1 < k {
      OffEnd(c, g, k - 1);
    }
  }

  /** The tables for lengths b stand in hp from t on and are looked up m bits at a time. */
  ghost predicate TreeIn(b: seq<nat>, s: nat, d: seq<nat>, e: seq<nat>, want: nat,
                         hp: seq<Huft>, t: nat, hn: nat, tabs: Tabs)
    requires Proper(b, s, d, e)
  {
    Sound(TreeJob(b, s, d, e, want), hp, tabs, t, hn)
  }

  /**
   * Walking the tables on bits that start with the code of symbol y
   * reaches the entry of y and drops exactly the bits of its code.
   */
  lemma DecodesSymbol(b: seq<nat>, s: nat, d: seq<nat>, e: seq<nat>, want: nat, hp: seq<Huft>, t: nat, hn: nat,
                      tabs: Tabs, y: nat, p: nat)
    requires Proper(b, s, d, e) && TreeIn(b, s, d, e, want, hp, t, hn, tabs)
    requires p < Pow2(15) && StartsWith(b, y, p)
    ensures var f := Walk(hp, t, Width(CountsOf(b), want), p, 15);
      f.Found? && f.n == b[y] && f.e.exop == SymExop(s, e, y) && f.e.base == SymBase(s, d, y)
  {
    hide CountsOf, Off, Order, Pow2, Rev, LenAt, RankAt, Over, Pos, StartsWith, Walk, Narrow, AllRight, Width;
    var job := TreeJob(b, s, d, e, want);
    var x := Rev(p, 15);
    RevLess(p, 15);
    SymOwns(b, s, d, e, want, y, p);
    RootWalk(job, hp, tabs, t, hn, p);
  }

  /** From the first table, every string is walked to the entry of the code that owns it. */
  lemma RootWalk(job: Job, hp: seq<Huft>, tabs: Tabs, t: nat, hn: nat, p: nat)
    requires job.Valid() && Sound(job, hp, tabs, t, hn) && p < Pow2(15)
    ensures Rev(p, 15) < Pow2(15)
    ensures var f := Walk(hp, t, job.l, p, 15);
      f.Found? && f.n == LenAt(job.c, Rev(p, 15)) && EntryFor(job, Rev(p, 15), f.e)
  {
    hide Walk, Rev, LenAt, EntryFor, Narrow, AllRight, Pos, Off, Pow2, Tables, Shr;
    RevLess(p, 15);
    ShrNone(p);
    WalkRight(job, hp, tabs, t, hn, t, p, Rev(p, 15));
  }

  /** Bits that start with no symbol's code reach an entry marked invalid; the tables know no other symbols. */
  lemma DecodesNothing(b: seq<nat>, s: nat, d: seq<nat>, e: seq<nat>, want: nat, hp: seq<Huft>, t: nat, hn: nat,
                       tabs: Tabs, p: nat)
    requires Proper(b, s, d, e) && TreeIn(b, s, d, e, want, hp, t, hn, tabs)
    requires p < Pow2(15) && forall y: nat :: !StartsWith(b, y, p)
    ensures var f := Walk(hp, t, Width(CountsOf(b), want), p, 15); f.Found? && f.e.exop == 192
  {
    hide CountsOf, Off, Order, Pow2, Rev, LenAt, RankAt, Over, Pos, StartsWith, Walk, Narrow, AllRight, Width;
    var job := TreeJob(b, s, d, e, want);
    RootWalk(job, hp, tabs, t, hn, p);
    if IndexAt(job.c, Rev(p, 15)) < |job.v| {
      var y := OwnerStarts(b, s, d, e, want, p);
    }
  }

  /** At most one symbol's code starts the bits: the code is free of prefixes. */
  lemma PrefixFree(b: seq<nat>, s: nat, d: seq<nat>, e: seq<nat>, y: nat, z: nat, p: nat)
    requires Proper(b, s, d, e) && StartsWith(b, y, p) && StartsWith(b, z, p)
    ensures y == z
  {
    hide CountsOf, Off, Order, Pow2, Rev, LenAt, RankAt, Over, Pos, StartsWith;
    SymOwns(b, s, d, e, 0, y, p);
    SymOwns(b, s, d, e, 0, z, p);
  }
}
