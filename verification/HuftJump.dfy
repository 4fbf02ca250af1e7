/**
 * Lengths for which huft_build leaves slots of a table unwritten: an incomplete distance code that its callers reject.
 */
module HuftJump {
  import opened Arith
  import opened CanonicalCode
  import opened HuftSpec
  import opened HuftInvariant
  import opened TableBuilder
  import opened InfTrees
  import HuftDecode
  import HuftLog
  import opened HuftSpace
  import opened CodeLengths
  import opened CodeSort
  import opened InflateTrees
  import opened TreeCallers
  import opened FixedTrees

  /** One code of each length from 1 to 6, and one of 15 bits. */
  const GAPPED: seq<nat> := [1, 2, 3, 4, 5, 6, 15]

  function IsOne(x: nat, k: nat): nat { if x == k then 1 else 0 }

  lemma CountOne(b: seq<nat>, x: nat, k: nat)
    ensures Count(b + [x], k) == Count(b, k) + IsOne(x, k)
  {
    assert (b + [x])[..|b|] == b;
  }

  lemma GappedCount(k: nat)
    ensures Count(GAPPED, k) == if 1 <= k <= 6 || k == 15 then 1 else 0
  {
    hide Count;
    CountOne([], 1, k);
    CountOne([1], 2, k);
    CountOne([1, 2], 3, k);
    CountOne([1, 2, 3], 4, k);
    CountOne([1, 2, 3, 4], 5, k);
    CountOne([1, 2, 3, 4, 5], 6, k);
    CountOne([1, 2, 3, 4, 5, 6], 15, k);
    assert [] + [1] == [1] && [1] + [2] == [1, 2] && [1, 2] + [3] == [1, 2, 3] && [1, 2, 3] + [4] == [1, 2, 3, 4];
    assert [1, 2, 3, 4] + [5] == [1, 2, 3, 4, 5] && [1, 2, 3, 4, 5] + [6] == [1, 2, 3, 4, 5, 6];
    assert [1, 2, 3, 4, 5, 6] + [15] == GAPPED;
  }

  /** The first unused patterns of each length. */
  lemma GappedEnds(c: Counts)
    requires forall k | 0 <= k < 15 :: c[k] == if 1 <= k <= 6 then 1 else 0
    ensures NextCode(c, 7) == 126 && End(c, 12) == 4032 && NextCode(c, 15) == 32256
    ensures forall k | 1 <= k < 15 :: End(c, k) <= Pow2(k)
  {
    assert NextCode(c, 1) == 0 && NextCode(c, 2) == 2 && NextCode(c, 3) == 6;
    assert NextCode(c, 4) == 14 && NextCode(c, 5) == 30 && NextCode(c, 6) == 62;
    assert NextCode(c, 7) == 126 && NextCode(c, 8) == 252 && NextCode(c, 9) == 504;
    assert NextCode(c, 10) == 1008 && NextCode(c, 11) == 2016 && NextCode(c, 12) == 4032;
    assert NextCode(c, 13) == 8064 && NextCode(c, 14) == 16128 && NextCode(c, 15) == 32256;
    Powers();
  }

  lemma Powers()
    ensures Pow2(1) == 2 && Pow2(2) == 4 && Pow2(3) == 8 && Pow2(4) == 16 && Pow2(5) == 32 && Pow2(6) == 64
    ensures Pow2(7) == 128
    ensures Pow2(8) == 256 && Pow2(9) == 512 && Pow2(10) == 1024 && Pow2(11) == 2048 && Pow2(12) == 4096
    ensures Pow2(13) == 8192
    ensures Pow2(14) == 16384 && Pow2(15) == 32768
  {
  }

  lemma GappedTree()
    ensures DistTree(GAPPED).Ok()
    ensures MaxLen(CountsOf(GAPPED), 15) == 15 && MinLen(CountsOf(GAPPED), 1) == 1 && Width(CountsOf(GAPPED), 6) == 6
    ensures End(CountsOf(GAPPED), 15) == 32257
  {
    hide Count, NextCode, Pow2;
    forall k: nat
      ensures Count(GAPPED, k) == if 1 <= k <= 6 || k == 15 then 1 else 0
    {
      GappedCount(k);
    }
    GappedEnds(CountsOf(GAPPED));
    Powers();
  }

  /** After six bits there is a prefix without any code of at most six more bits. */
  lemma GappedJumps()
    ensures DistTree(GAPPED).Ok() && !NoJump(DistTree(GAPPED).Job())
  {
    hide Count, NextCode, Pow2, Off, Order, Over, Shl;
    GappedTree();
    var job := DistTree(GAPPED).Job();
    forall k: nat
      ensures Count(GAPPED, k) == if 1 <= k <= 6 || k == 15 then 1 else 0
    {
      GappedCount(k);
    }
    GappedEnds(job.c);
    Powers();
    ShlThree(4032);
    assert job.l == 6 && job.g == 15;
    assert Level(6, 0);
    assert Level(6, 6);
    assert Pos(job.c, 12) == 32256;
  }

  /** The job that these lengths make, its unused patterns added to the longest length. */
  ghost predicate Gapped(job: Job) {
    && job.Valid() && job.g == 15 && job.l == 6 && job.c[15] == 512 && NextCode(job.c, 15) == 32256
    && forall k | 1 <= k < 15 :: job.c[k] == if k <= 6 then 1 else 0
  }

  lemma GappedJob()
    ensures DistTree(GAPPED).Ok() && Gapped(DistTree(GAPPED).Job())
  {
    hide Count, NextCode, Pow2, Off, Order, Over, Shl;
    GappedTree();
    var job := DistTree(GAPPED).Job();
    forall k: nat
      ensures Count(GAPPED, k) == if 1 <= k <= 6 || k == 15 then 1 else 0
    {
      GappedCount(k);
    }
    GappedEnds(job.c);
    Powers();
  }

  /** Only the very first of the short codes needs a table. */
  lemma ShortSize(job: Job, k: nat)
    requires Gapped(job) && 1 <= k <= 6
    ensures SizeFrom(job, Start(job.c, k, 0), 0) == if k == 1 then 64 else 0
  {
    hide LenAt, RankAt, BitsAt, Low, Pow2, Off, Pos, Shl, NextCode, Complete;
    var s := Start(job.c, k, 0);
    CodeFacts(job, s, k, 0);
    LowSmall(s, 15);
    assert SizeFrom(job, s, 6) == 0;
    Powers();
    if k == 1 {
      StartZero(job.c);
      RootBits(job);
    } else {
      NotFirst(job.c, k);
    }
  }

  lemma NotFirst(c: Counts, k: nat)
    requires 1 < k <= 6 && c[1] == 1
    ensures Start(c, k, 0) > 0
    decreases k
  {
    if k == 2 {
      assert NextCode(c, 2) == 2 * (NextCode(c, 1) + c[1]);
    } else {
      NotFirst(c, k - 1);
      assert NextCode(c, k) >= 2 * NextCode(c, k - 1);
      if NextCode(c, k - 1) == 0 {
        ShlZero(15 - (k - 1));
      }
    }
    ShlMono(1, NextCode(c, k), 15 - k);
    Pow2Pos(15 - k);
    ShlPow2(0, 15 - k);
  }

  /**
   * A code of 15 bits needs a table of 512 entries when it is the
   * first, and one of eight whenever its last three bits are zero.
   */
  lemma LongSize(job: Job, r: nat)
    requires Gapped(job) && r < 512
    ensures SizeFrom(job, Start(job.c, 15, r), 0) == (if r == 0 then 512 else 0) + (if r % 8 == 0 then 8 else 0)
  {
    hide LenAt, RankAt, BitsAt, Low, Pow2, Off, Pos, Shl, NextCode, Complete;
    var s := Start(job.c, 15, r);
    ShlNone(32256 + r);
    assert s == 32256 + r;
    CodeFacts(job, s, 15, r);
    Powers();
    LowSmall(s, 15);
    ShlNine(63);
    SplitUnique(s, 9, r, 63);
    ShlThree(4032 + r / 8);
    SplitUnique(s, 3, r % 8, 4032 + r / 8);
    LongBits(job, r);
    assert SizeFrom(job, s, 18) == 0;
    assert SizeFrom(job, s, 12) == if r % 8 == 0 then 8 else 0;
    assert SizeFrom(job, s, 6) == (if r == 0 then 512 else 0) + (if r % 8 == 0 then 8 else 0);
  }

  lemma LongBits(job: Job, r: nat)
    requires Gapped(job) && r < 512 && LenAt(job.c, 32256 + r) == 15 && RankAt(job.c, 32256 + r) == r
    ensures r == 0 ==> BitsAt(job, 6, 32256 + r) == 9
    ensures BitsAt(job, 12, 32256 + r) == 3
  {
    hide LenAt, RankAt, Pow2, Off, Pos, Shl, NextCode, Complete;
    Powers();
  }

  lemma ShlNine(x: nat)
    ensures Shl(x, 9) == 512 * x
  {
    ShlThree(x);
    ShlThree(8 * x);
    ShlThree(64 * x);
    ShlShl(x, 3, 3);
    ShlShl(x, 6, 3);
  }

  /** The space taken by the codes up to length k and rank r. */
  lemma {:induction false} GappedUsed(job: Job, k: nat, r: nat)
    requires Gapped(job) && 1 <= k <= 15 && r <= job.c[k]
    ensures Used(job, k, r)
      == (if k > 1 || r > 0 then 64 else 0) + (if k == 15 && r > 0 then 512 + 8 * ((r + 7) / 8) else 0)
    decreases k, r
  {
    hide Start, SizeFrom, NextCode, Pow2, Off, Pos, Complete;
    if r > 0 {
      GappedUsed(job, k, r - 1);
      if k == 15 {
        LongSize(job, r - 1);
      } else {
        ShortSize(job, k);
      }
    } else if k > 1 {
      GappedUsed(job, k - 1, job.c[k - 1]);
    }
  }

  /**
   * With 1088 entries of table space left, huft_build reports an incomplete set and leaves
   * some entry that it claims as it was; with less it reports that the space is used up.
   */
  lemma GappedLeavesGaps(hp0: seq<Huft>, hn: nat, hp: seq<Huft>, r: Ret, t: Option<nat>, m: nat, hn': nat, tabs: Tabs)
    requires Usable(GAPPED, 0, CPDIST, CPDEXT) && Outcome(GAPPED, 0, CPDIST, CPDEXT, 6, hp0, hn, hp, r, t, m, hn', tabs)
    ensures if hn + 1088 <= MANY then r == Z_BUF_ERROR && hn' == hn + 1088 && HuftDecode.LeavesGap(hp0, hp, hn, hn')
      else r == Z_DATA_ERROR
  {
    hide Count, NextCode, Pow2, Off, Order, Over, Built, Untouched, NoJump, Used, Pos, Width, HuftDecode.LeavesGap;
    GappedTree();
    GappedJumps();
    GappedJob();
    Powers();
    var job := DistTree(GAPPED).Job();
    GappedUsed(job, 15, 512);
    if hn + 1088 <= MANY {
      HuftDecode.JumpLeavesGap(job, hp0, hp, tabs, hn, hn');
    }
  }

  /** So it does when called: 1088 entries are claimed, and one of them is never written. */
  method BuildGapped(hp: array<Huft>, hn: nat) returns (r: Ret, hn': nat, ghost log: seq<nat>)
    requires hn + 1088 <= MANY <= hp.Length
    modifies hp
    ensures r == Z_BUF_ERROR && hn' == hn + 1088 && HuftLog.Writes(old(hp[..]), hp[..], hn, hn', log)
    ensures exists a :: hn <= a < hn' && a !in log
  {
    hide *;
    GappedUsable();
    var v := new nat[|GAPPED|](_ => 0);
    var t, m;
    ghost var tabs;
    r, t, m, hn', tabs, log := HuftBuild(GAPPED, 0, CPDIST, CPDEXT, 6, hp, hn, v);
    GappedLeavesGaps(old(hp[..]), hn, hp[..], r, t, m, hn', tabs);
    GappedUnwritten(old(hp[..]), hn, hp[..], r, t, m, hn', tabs, log);
  }

  lemma GappedUnwritten(hp0: seq<Huft>, hn: nat, hp: seq<Huft>, r: Ret, t: Option<nat>, m: nat, hn': nat, tabs: Tabs,
                        log: seq<nat>)
    requires Usable(GAPPED, 0, CPDIST, CPDEXT) && Outcome(GAPPED, 0, CPDIST, CPDEXT, 6, hp0, hn, hp, r, t, m, hn', tabs)
    requires Once(GAPPED, 0, CPDIST, CPDEXT, 6, hp0, hn, hp, t, hn', tabs, log) && r == Z_BUF_ERROR
    ensures HuftLog.Writes(hp0, hp, hn, hn', log) && exists a :: hn <= a < hn' && a !in log
  {
    hide Count, NextCode, Pow2, Off, Order, Over, Built, Untouched, NoJump, Used, Pos, Width, HuftLog.Writes;
    GappedTree();
    GappedJumps();
    HuftDecode.JumpUnwritten(DistTree(GAPPED).Job(), hp0, hp, tabs, hn, hn', log);
  }

  lemma GappedUsable()
    ensures Usable(GAPPED, 0, CPDIST, CPDEXT)
  {
  }
}
