/**
 * How much of the table space huft_build takes: at each level, one entry a code and twice the largest table that grew.
 */
module HuftSpace {
  import opened Arith
  import opened CanonicalCode
  import opened HuftSpec
  import opened HuftInvariant
  import opened HuftSteps
  import opened TableBuilder
  import opened InfTrees
  import opened HuftDecode

  // ---- a single table ----

  /** A single table takes 2^l entries. */
  lemma {:induction false} UsedByOne(job: Job, k: nat, r: nat)
    requires job.Valid() && job.g == job.l && 1 <= k <= job.g && r <= job.c[k]
    ensures Used(job, k, r) == if Start(job.c, k, r) > 0 then Pow2(job.l) else 0
    decreases k, r
  {
    hide Start, LenAt, BitsAt, Low, Pow2, Off, Pos;
    if r > 0 {
      UsedByOne(job, k, r - 1);
      CodeRoom(job, k, r - 1);
      OneTable(job, Start(job.c, k, r - 1));
    } else if k > 1 {
      UsedByOne(job, k - 1, job.c[k - 1]);
      SameStart(job.c, k - 1);
    } else {
      StartZero(job.c);
    }
  }

  lemma StartZero(c: Counts)
    ensures Start(c, 1, 0) == 0
  {
    ShlZero(14);
  }

  lemma CodeRoom(job: Job, k: nat, r: nat)
    requires job.Valid() && 1 <= k <= job.g && r < job.c[k]
    ensures Start(job.c, k, r) < Start(job.c, k, r + 1) <= Pow2(15)
    ensures LenAt(job.c, Start(job.c, k, r)) <= job.g
  {
    hide LenAt, Pow2, Shl, NextCode, Off, Pos;
    CodeFacts(job, Start(job.c, k, r), k, r);
    StartNext(job.c, k, r);
  }

  lemma OneTable(job: Job, s: nat)
    requires job.Valid() && job.g == job.l && s < Pow2(15) && LenAt(job.c, s) <= job.g
    ensures SizeFrom(job, s, 0) == if s == 0 then Pow2(job.l) else 0
  {
    hide LenAt, BitsAt, Low, Pow2, Off, Pos;
    LowSmall(s, 15);
    assert SizeFrom(job, s, 0 + job.l) == 0;
    if s == 0 {
      RootBits(job);
    }
  }

  lemma SingleTable(job: Job)
    requires job.Valid() && job.g == job.l
    ensures TotalUsed(job) == Pow2(job.l) && NoJump(job)
  {
    hide Start, LenAt, BitsAt, Low, Pow2, Off, Pos, Used, Level;
    UsedByOne(job, job.g, job.c[job.g]);
    CodeRoom(job, job.g, job.c[job.g] - 1);
  }

  // ---- the levels one by one ----

  /** The space taken by the table that begins at s after w bits, if one does. */
  function OneSize(job: Job, s: nat, w: nat): nat
    requires job.g <= 15
  {
    if w < LenAt(job.c, s) && Low(s, 15 - w) == 0 then Pow2(BitsAt(job, w, s)) else 0
  }

  /** The space taken by the tables after exactly w bits for all codes before that of length k and rank r. */
  function LevelUsed(job: Job, w: nat, k: nat, r: nat): nat
    requires job.g <= 15 && k <= 15
    decreases k, r
  {
    if r > 0 then LevelUsed(job, w, k, r - 1) + OneSize(job, Start(job.c, k, r - 1), w)
    else if k <= 1 then 0
    else LevelUsed(job, w, k - 1, job.c[k - 1])
  }

  /** ... and by those after w bits or more. */
  function UsedFrom(job: Job, w: nat, k: nat, r: nat): nat
    requires 0 < job.l && job.g <= 15 && k <= 15
    decreases k, r
  {
    if r > 0 then UsedFrom(job, w, k, r - 1) + SizeFrom(job, Start(job.c, k, r - 1), w)
    else if k <= 1 then 0
    else UsedFrom(job, w, k - 1, job.c[k - 1])
  }

  lemma {:induction false} UsedIs(job: Job, k: nat, r: nat)
    requires 0 < job.l && job.g <= 15 && k <= 15
    ensures Used(job, k, r) == UsedFrom(job, 0, k, r)
    decreases k, r
  {
    hide SizeFrom, Start;
    if r > 0 {
      UsedIs(job, k, r - 1);
    } else if k > 1 {
      UsedIs(job, k - 1, job.c[k - 1]);
    }
  }

  lemma SizeSplits(job: Job, s: nat, w: nat)
    requires 0 < job.l && job.g <= 15
    ensures SizeFrom(job, s, w) == OneSize(job, s, w) + SizeFrom(job, s, w + job.l)
  {
    hide LenAt, BitsAt, Low, Pow2;
  }

  lemma {:induction false} UsedSplits(job: Job, w: nat, k: nat, r: nat)
    requires 0 < job.l && job.g <= 15 && k <= 15
    ensures UsedFrom(job, w, k, r) == LevelUsed(job, w, k, r) + UsedFrom(job, w + job.l, k, r)
    decreases k, r
  {
    hide SizeFrom, OneSize, Start;
    if r > 0 {
      UsedSplits(job, w, k, r - 1);
      SizeSplits(job, Start(job.c, k, r - 1), w);
    } else if k > 1 {
      UsedSplits(job, w, k - 1, job.c[k - 1]);
    }
  }

  /** No table begins after all bits. */
  lemma {:induction false} NoneDeeper(job: Job, w: nat, k: nat, r: nat)
    requires 0 < job.l && job.g <= 15 && k <= 15 <= w
    ensures UsedFrom(job, w, k, r) == 0
    decreases k, r
  {
    hide Start;
    if r > 0 {
      NoneDeeper(job, w, k, r - 1);
    } else if k > 1 {
      NoneDeeper(job, w, k - 1, job.c[k - 1]);
    }
  }

  // ---- counting the codes of an interval ----

  /** From the start of one code to that of a later one there are enough codes, none of them shorter than the first. */
  lemma CodesBetween(c: Counts, k: nat, r: nat, k': nat, r': nat)
    requires 2 <= k <= k' <= 15 && Start(c, k, r) <= Start(c, k', r') && (k == k' || r <= c[k])
    requires r' <= c[k']
    ensures Off(c, k) + r <= Off(c, k') + r'
    ensures Start(c, k', r') <= Start(c, k, r) + Shl(Off(c, k') + r' - Off(c, k) - r, 15 - k)
  {
    hide Shl, Pos, Off, NextCode;
    StartPos(c, k, r);
    StartPos(c, k', r');
    if k == k' {
      if r' < r {
        ShlGap(r', r, 15 - k);
      }
      ShlAdd(r' - r, r, 15 - k);
    } else {
      OffMono(c, k, k' - 1 + 1);
      OffMono(c, k + 1, k');
      OffStep(c, k);
      Tail(c, k - 1, k' - 1);
      ShlWider(r', 15 - k', 15 - k);
      ShlAdd(Off(c, k') - Off(c, k), r', 15 - k);
      ShlAdd(Off(c, k') + r' - Off(c, k) - r, r, 15 - k);
    }
  }

  lemma StartPos(c: Counts, k: nat, r: nat)
    requires 1 <= k <= 15
    ensures Start(c, k, r) == Pos(c, k - 1) + Shl(r, 15 - k)
  {
    hide Shl, Pos, NextCode;
    ShlAdd(NextCode(c, k), r, 15 - k);
    PosNext(c, k);
  }

  /** How many codes begin before x, when a code begins at x or x is past all. */
  function Before(c: Counts, x: nat): int {
    if x < Pow2(15) then IndexAt(c, x) else Off(c, 16)
  }

  /** The length and rank of the code that owns x, or those past the last one. */
  lemma OwnerAt(job: Job, x: nat) returns (k: nat, r: nat)
    requires job.Valid() && x <= Pow2(15)
    ensures 1 <= k <= 15 && r <= job.c[k] && Before(job.c, x) == Off(job.c, k) + r && Start(job.c, k, r) <= x
    ensures x < Pow2(15) ==> k == LenAt(job.c, x) && r < job.c[k] && x < Start(job.c, k, r) + Pow2(15 - k)
    ensures x == Pow2(15) ==> Start(job.c, k, r) == x && k == 15
  {
    hide Shl, Off, NextCode, LenAt, RankAt, Pow2, Pos;
    if x < Pow2(15) {
      OwnerOf(job.c, job.g, x);
      k, r := LenAt(job.c, x), RankAt(job.c, x);
    } else {
      k, r := 15, job.c[15];
      CompletePos(job.c, job.g, 15);
      PosNext(job.c, 15);
      StartPos(job.c, 15, r);
      OffStep(job.c, 15);
    }
  }

  lemma BeforeMono(job: Job, x: nat, y: nat)
    requires job.Valid() && x <= y <= Pow2(15)
    ensures 0 <= Before(job.c, x) <= Before(job.c, y)
  {
    hide Shl, Off, NextCode, LenAt, RankAt, Pow2, Pos, Before, Start;
    var k, r := OwnerAt(job, x);
    var k', r' := OwnerAt(job, y);
    if y < Pow2(15) {
      LenAtMono(job.c, x, y);
    }
    if k < k' {
      OffMono(job.c, k + 1, k');
      OffStep(job.c, k);
    } else if r' < r {
      LaterStart(job.c, k, r', r);
    }
  }

  lemma LaterStart(c: Counts, k: nat, r: nat, r': nat)
    requires 1 <= k <= 15 && r < r'
    ensures Start(c, k, r) + Pow2(15 - k) <= Start(c, k, r')
  {
    hide Shl, NextCode, Pow2;
    ShlGap(NextCode(c, k) + r, NextCode(c, k) + r', 15 - k);
  }

  /** A prefix of w bits that begins with a longer code begins where that code does. */
  lemma AlignedStart(job: Job, w: nat, x: nat) returns (k: nat, r: nat)
    requires job.Valid() && x <= Pow2(15) && w < 15 && Low(x, 15 - w) == 0
    requires x < Pow2(15) ==> w < LenAt(job.c, x)
    ensures 1 <= k <= 15 && r <= job.c[k] && Before(job.c, x) == Off(job.c, k) + r && Start(job.c, k, r) == x
    ensures if x < Pow2(15) then k == LenAt(job.c, x) else k == 15
  {
    hide Shl, Off, NextCode, LenAt, RankAt, Pow2, Pos, Low;
    k, r := OwnerAt(job, x);
    if x < Pow2(15) {
      PrefixStart(job, w, x);
    }
  }

  /** A table holds at least as many codes as strings of the length of its first code. */
  lemma TableGains(job: Job, w: nat, s: nat)
    requires job.Valid() && 0 < w < 15 && Low(s, 15 - w) == 0 && s < Pow2(15) && w < LenAt(job.c, s)
    ensures s + Pow2(15 - w) <= Pow2(15)
    ensures Before(job.c, s) + Pow2(LenAt(job.c, s) - w) <= Before(job.c, s + Pow2(15 - w))
  {
    hide Shl, Off, NextCode, LenAt, RankAt, Pow2, Pos, Before, Start, Low;
    var y := s + Pow2(15 - w);
    LowPow2(15, 15 - w);
    AlignedGap(s, Pow2(15), 15 - w);
    LowPow2(15 - w, 15 - w);
    LowZeroAdd(s, Pow2(15 - w), 15 - w);
    LenAtMono(job.c, s, y);
    var k, r := AlignedStart(job, w, s);
    var k', r' := AlignedStart(job, w, y);
    CodesBetween(job.c, k, r, k', r');
    ShlPow2(k - w, 15 - k);
    var n := Before(job.c, y) - Before(job.c, s);
    if n < Pow2(k - w) {
      ShlGap(n, Pow2(k - w), 15 - k);
    }
  }

  // ---- tables that grow ----

  lemma {:induction false} GrowNeeds(c: Counts, z: nat, w: nat, j: nat, f: nat, hi: nat)
    requires 1 <= j <= z && w + z <= 15 && f > 0
    requires Pos(c, w + j - 1) + Shl(f, 15 - (w + j - 1)) == hi
    ensures j <= Grow(c, z, w, j, f) <= z && Pos(c, w + Grow(c, z, w, j, f) - 1) < hi
    decreases z - j
  {
    ShlGap(0, f, 15 - (w + j - 1));
    if j < z && 2 * f > c[w + j] {
      var n := 15 - (w + j);
      PosNext(c, w + j);
      ShlShl(f, 1, n);
      assert Shl(f, 1) == 2 * Shl(f, 0);
      ShlAdd(2 * f - c[w + j], c[w + j], n);
      GrowNeeds(c, z, w, j + 1, 2 * f - c[w + j], hi);
    }
  }

  /** A table larger than its first code needs ends in a code that needs all its bits. */
  lemma GrownEnds(job: Job, w: nat, s: nat)
    requires job.Valid() && w < 15 && Low(s, 15 - w) == 0 && s + Pow2(15 - w) <= Pow2(15) && w < LenAt(job.c, s)
    ensures var j := BitsAt(job, w, s);
      j >= LenAt(job.c, s) - w && (j > LenAt(job.c, s) - w ==> w + j <= 15 && Pos(job.c, w + j - 1) < s + Pow2(15 - w))
  {
    hide Shl, Low, Pow2, NextCode, LenAt, RankAt, Grow, Off;
    var c, k, j := job.c, LenAt(job.c, s), BitsAt(job, w, s);
    PrefixStart(job, w, s);
    var n := c[k] - RankAt(c, s);
    ShlAdd(NextCode(c, k) + RankAt(c, s), n, 15 - k);
    assert Pos(c, k) == s + Shl(n, 15 - k);
    ShlPow2(k - w, 15 - k);
    var z := if job.g - w > job.l then job.l else job.g - w;
    if Pow2(k - w) > n && k - w < z {
      var f := Pow2(k - w) - n;
      ShlAdd(f, n, 15 - k);
      GrowNeeds(c, z, w, k - w + 1, f, s + Pow2(15 - w));
    }
  }

  // ---- the bound ----

  /** The first prefix of w bits that does not begin before s. */
  function Ceil(s: nat, w: nat): nat
    requires w <= 15
  {
    if Low(s, 15 - w) == 0 then s else s - Low(s, 15 - w) + Pow2(15 - w)
  }

  lemma CeilFacts(s: nat, w: nat)
    requires w <= 15 && s <= Pow2(15)
    ensures s <= Ceil(s, w) <= Pow2(15) && Low(Ceil(s, w), 15 - w) == 0
  {
    hide Low, Pow2, Shl, Shr;
    var n := 15 - w;
    var b := s - Low(s, n);
    SplitAt(s, n);
    LowOfMultiple(Shr(s, n), n, n);
    LowPow2(n, n);
    LowZeroAdd(b, Pow2(n), n);
    LowPow2(15, n);
    CeilLeast(s, w, Pow2(15));
  }

  lemma CeilLeast(s: nat, w: nat, y: nat)
    requires w <= 15 && s <= y && Low(y, 15 - w) == 0
    ensures Ceil(s, w) <= y
  {
    hide Low, Pow2, Shl, Shr;
    var n := 15 - w;
    SplitAt(s, n);
    LowOfMultiple(Shr(s, n), n, n);
    if s - Low(s, n) < y {
      AlignedGap(s - Low(s, n), y, n);
    }
  }

  /** No table of an earlier prefix has grown beyond m bits, and codes that long have been reached. */
  ghost predicate Grown(job: Job, w: nat, y: nat, m: nat)
    requires job.g <= 15
  {
    m <= job.l && (m == 0 || w + m <= job.g) && (m == 0 || y >= Pow2(15) || w + m <= LenAt(job.c, y))
  }

  /** One more table: the codes that it holds pay for it, or it is twice as large as any that grew before. */
  lemma OneMoreTable(job: Job, w: nat, s: nat, y: nat, m: nat, u: nat) returns (m': nat)
    requires job.Valid() && NoJump(job) && Level(job.l, w) && 0 < w < 15
    requires s < Pow2(15) && Low(s, 15 - w) == 0 && w < LenAt(job.c, s) && s < y <= Pow2(15) && Low(y, 15 - w) == 0
    requires Grown(job, w, s, m) && u <= Before(job.c, s) + 2 * Pow2(m)
    ensures Grown(job, w, y, m') && u + Pow2(BitsAt(job, w, s)) <= Before(job.c, y) + 2 * Pow2(m')
  {
    hide Low, Pow2, LenAt, RankAt, BitsAt, Off, Pos, Before, Level, NoJump;
    AlignedGap(s, y, 15 - w);
    TableGains(job, w, s);
    BeforeMono(job, s + Pow2(15 - w), y);
    GrownEnds(job, w, s);
    NewTable(job, w, s);
    WideTable(job, Tab(w, BitsAt(job, w, s), s));
    var k, j := LenAt(job.c, s), BitsAt(job, w, s);
    LenAtMono(job.c, s, y);
    if j == k - w {
      m' := m;
    } else {
      m' := j;
      DoublePow2(m);
      Pow2Mono(m + 1, j);
      BitsCover(job, w, s);
      LenReached(job.c, w + j, y);
    }
  }

  lemma LenReached(c: Counts, k: nat, y: nat)
    requires 1 <= k <= 15 && Pos(c, k - 1) <= y
    ensures k <= LenAt(c, y)
  {
    hide Pos;
    if LenAt(c, y) < k {
      PosMono(c, LenAt(c, y), k - 1);
    }
  }

  lemma {:induction false} LevelBound(job: Job, w: nat, k: nat, r: nat) returns (m: nat)
    requires job.Valid() && NoJump(job) && Level(job.l, w) && 0 < w < 15 && 1 <= k <= job.g && r <= job.c[k]
    ensures Start(job.c, k, r) <= Pow2(15)
    ensures var y := Ceil(Start(job.c, k, r), w);
      Grown(job, w, y, m) && LevelUsed(job, w, k, r) <= Before(job.c, y) + 2 * Pow2(m)
    decreases k, r
  {
    hide Low, Pow2, LenAt, RankAt, BitsAt, Off, Pos, Before, Level, NoJump, Start, Ceil;
    if r > 0 {
      var s := Start(job.c, k, r - 1);
      var u := LevelUsed(job, w, k, r - 1);
      m := LevelBound(job, w, k, r - 1);
      CodeRoom(job, k, r - 1);
      StartNext(job.c, k, r - 1);
      var x, y := Ceil(s, w), Ceil(Start(job.c, k, r), w);
      CeilFacts(s, w);
      CeilFacts(Start(job.c, k, r), w);
      CeilLeast(s, w, y);
      LenAtMono(job.c, x, y);
      BeforeMono(job, x, y);
      if w < LenAt(job.c, s) && Low(s, 15 - w) == 0 {
        CeilLeast(s, w, s);
        m := OneMoreTable(job, w, s, y, m, u);
      }
    } else if k > 1 {
      m := LevelBound(job, w, k - 1, job.c[k - 1]);
      SameStart(job.c, k - 1);
    } else {
      m := 0;
      StartZero(job.c);
      CeilFacts(0, w);
      BeforeMono(job, Ceil(0, w), Ceil(0, w));
    }
  }

  /** The tables after w bits take at most one entry a code and twice what the largest of them could. */
  lemma LevelTotal(job: Job, w: nat)
    requires job.Valid() && NoJump(job) && Level(job.l, w) && 0 < w < 15
    ensures LevelUsed(job, w, job.g, job.c[job.g])
      <= Off(job.c, 16) + 2 * Pow2(if w + job.l <= job.g then job.l else if w <= job.g then job.g - w else 0)
  {
    hide Low, Pow2, LenAt, RankAt, BitsAt, Off, Pos, Level, NoJump, Start, Ceil;
    var m := LevelBound(job, w, job.g, job.c[job.g]);
    var s := Start(job.c, job.g, job.c[job.g]);
    CeilFacts(s, w);
    BeforeMono(job, Ceil(s, w), Pow2(15));
    Pow2Mono(m, if w + job.l <= job.g then job.l else if w <= job.g then job.g - w else 0);
  }

  /** The first table is the only one of its level. */
  lemma {:induction false} FirstLevel(job: Job, k: nat, r: nat)
    requires job.Valid() && 1 <= k <= job.g && r <= job.c[k]
    ensures LevelUsed(job, 0, k, r) <= Pow2(job.l)
    ensures Start(job.c, k, r) == 0 ==> LevelUsed(job, 0, k, r) == 0
    decreases k, r
  {
    hide Low, Pow2, LenAt, RankAt, BitsAt, Off, Pos, Start;
    if r > 0 {
      var s := Start(job.c, k, r - 1);
      FirstLevel(job, k, r - 1);
      CodeRoom(job, k, r - 1);
      LowSmall(s, 15);
      RootBits(job);
    } else if k > 1 {
      FirstLevel(job, k - 1, job.c[k - 1]);
      SameStart(job.c, k - 1);
    }
  }

  /** Two levels, as for a lookup of nine bits at once, or three, as for one of six. */
  lemma SpaceTwo(job: Job)
    requires job.Valid() && NoJump(job) && 8 <= job.l < 15
    ensures TotalUsed(job) <= Pow2(job.l) + Off(job.c, 16) + 2 * Pow2(15 - job.l)
  {
    hide Low, Pow2, LenAt, RankAt, BitsAt, Off, Pos, Level, NoJump, Start, LevelUsed, UsedFrom;
    var k, n := job.g, job.c[job.g];
    UsedIs(job, k, n);
    UsedSplits(job, 0, k, n);
    UsedSplits(job, job.l, k, n);
    NoneDeeper(job, 2 * job.l, k, n);
    FirstLevel(job, k, n);
    LevelsAre(job.l);
    LevelTotal(job, job.l);
    Pow2Mono(if job.l + job.l <= job.g then job.l else job.g - job.l, 15 - job.l);
  }

  lemma LevelsAre(l: nat)
    requires l > 0
    ensures Level(l, l) && Level(l, l + l)
  {
    assert Level(l, 0);
  }

  lemma SpaceThree(job: Job)
    requires job.Valid() && NoJump(job) && 5 <= job.l <= 7
    ensures TotalUsed(job) <= Pow2(job.l) + 2 * Off(job.c, 16) + 2 * Pow2(job.l) + 2 * Pow2(15 - 2 * job.l)
  {
    hide Low, Pow2, LenAt, RankAt, BitsAt, Off, Pos, Level, NoJump, Start, LevelUsed, UsedFrom;
    var k, n := job.g, job.c[job.g];
    UsedIs(job, k, n);
    UsedSplits(job, 0, k, n);
    UsedSplits(job, job.l, k, n);
    UsedSplits(job, 2 * job.l, k, n);
    NoneDeeper(job, 3 * job.l, k, n);
    FirstLevel(job, k, n);
    LevelsAre(job.l);
    LevelTotal(job, job.l);
    LevelTotal(job, 2 * job.l);
    Pow2Mono(if job.l + job.l <= job.g then job.l else if job.l <= job.g then job.g - job.l else 0, job.l);
    Pow2Mono(if 3 * job.l <= job.g then job.l else if 2 * job.l <= job.g then job.g - 2 * job.l else 0, 15 - 2 * job.l);
  }
}
