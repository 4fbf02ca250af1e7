/** The first half of huft_build in inftrees.c: counting lengths, checking them, and sorting the symbols. */
module CodeLengths {
  import opened Arith
  import opened CanonicalCode
  import opened HuftSpec

  /** How many symbols have length k. */
  function Count(b: seq<nat>, k: nat): (r: nat)
    ensures r <= |b|
  {
    if b == [] then 0
    else Count(b[..|b| - 1], k) + (if b[|b| - 1] == k then 1 else 0)
  }

  function CountsOf(b: seq<nat>): Counts {
    seq(16, k requires 0 <= k => Count(b, k))
  }

  /** The symbols of length k, in order. */
  function SymsOf(b: seq<nat>, k: nat): (r: seq<nat>)
    ensures |r| == Count(b, k)
  {
    if b == [] then []
    else SymsOf(b[..|b| - 1], k) + (if b[|b| - 1] == k then [|b| - 1] else [])
  }

  /** The symbols of length 1 to k, shortest first and in order within a length. */
  function Order(b: seq<nat>, k: nat): seq<nat> {
    if k == 0 then [] else Order(b, k - 1) + SymsOf(b, k)
  }

  predicate Lengths(b: seq<nat>) {
    0 < |b| && forall i | 0 <= i < |b| :: b[i] <= BMAX
  }

  /** The longest length in use, 0 if none. */
  function MaxLen(c: Counts, k: nat): (r: nat)
    requires k <= 15
    ensures r <= k && (r > 0 ==> c[r] > 0) && forall j | r < j <= k :: c[j] == 0
  {
    if k == 0 || c[k] > 0 then k else MaxLen(c, k - 1)
  }

  /** The shortest length in use from k on, 16 if none. */
  function MinLen(c: Counts, k: nat): (r: nat)
    requires 1 <= k <= 16
    ensures k <= r <= 16 && (r < 16 ==> c[r] > 0) && forall j | k <= j < r :: c[j] == 0
    decreases 16 - k
  {
    if k == 16 || c[k] > 0 then k else MinLen(c, k + 1)
  }

  /** More codes than patterns at some length. */
  ghost predicate Over(c: Counts) {
    exists k :: 1 <= k <= 15 && End(c, k) > Pow2(k)
  }

  /** The lookup width: the wanted one, kept between the shortest and the longest length. */
  function Width(c: Counts, want: nat): nat {
    var low := if want < MinLen(c, 1) then MinLen(c, 1) else want;
    if low > MaxLen(c, 15) then MaxLen(c, 15) else low
  }

  /** The counts with the unused patterns of the longest length added. */
  function Fill(c: Counts, g: nat): Counts
    requires 1 <= g <= 15 && End(c, g) <= Pow2(g)
  {
    c[g := c[g] + Pow2(g) - End(c, g)]
  }

  lemma {:induction false} EndSame(c: Counts, c': Counts, k: nat)
    requires k <= 16 && forall j | 1 <= j < k :: c'[j] == c[j]
    ensures NextCode(c', k) == NextCode(c, k) && Off(c', k) == Off(c, k)
  {
    if k > 1 {
      EndSame(c, c', k - 1);
    }
  }

  /** Past the longest length the patterns only double. */
  lemma {:induction false} EndDoubles(c: Counts, g: nat, k: nat)
    requires 1 <= g <= k <= 15 && forall j | g < j <= k :: c[j] == 0
    ensures End(c, k) > Pow2(k) <==> End(c, g) > Pow2(g)
  {
    if g < k {
      EndDoubles(c, g, k - 1);
    }
  }

  lemma {:induction false} OverStays(c: Counts, k: nat, m: nat)
    requires 1 <= k <= m <= 15 && End(c, k) > Pow2(k)
    ensures End(c, m) > Pow2(m)
  {
    if k < m {
      OverStays(c, k, m - 1);
    }
  }

  /** The check at the longest length is the whole check. */
  lemma OverAtMax(c: Counts, g: nat)
    requires 1 <= g <= 15 && forall j | g < j <= 15 :: c[j] == 0
    ensures Over(c) <==> End(c, g) > Pow2(g)
  {
    hide End, Pow2;
    if k :| 1 <= k <= 15 && End(c, k) > Pow2(k) {
      if k <= g {
        OverStays(c, k, g);
      } else {
        EndDoubles(c, g, k);
      }
    }
  }

  lemma FillComplete(c: Counts, g: nat)
    requires 1 <= g <= 15 && End(c, g) <= Pow2(g) && c[g] > 0 && forall j | g < j <= 15 :: c[j] == 0
    ensures Complete(Fill(c, g), g)
    ensures forall k | 1 <= k <= g :: NextCode(Fill(c, g), k) == NextCode(c, k) && Off(Fill(c, g), k) == Off(c, k)
  {
    hide NextCode, Pow2, Off;
    var c' := Fill(c, g);
    forall k | 1 <= k <= g
      ensures NextCode(c', k) == NextCode(c, k) && Off(c', k) == Off(c, k)
    {
      EndSame(c, c', k);
    }
  }

  // ---- the Kraft sum ----

  /** The number of 15-bit strings that codes of these lengths claim. */
  function KraftSum(b: seq<nat>): nat {
    if b == [] then 0
    else KraftSum(b[..|b| - 1]) + (if 1 <= b[|b| - 1] <= 15 then Pow2(15 - b[|b| - 1]) else 0)
  }

  lemma {:induction false} PosOfOneMore(c: Counts, x: nat, k: nat)
    requires x <= 15 && k <= 15
    ensures Pos(c[x := c[x] + 1], k) == Pos(c, k) + (if 1 <= x <= k then Pow2(15 - x) else 0)
    decreases k
  {
    hide Pos, Shl, Pow2;
    if k == 0 {
      PosZero(c);
      PosZero(c[x := c[x] + 1]);
    } else {
      PosOfOneMore(c, x, k - 1);
      PosNext(c, k);
      PosNext(c[x := c[x] + 1], k);
      if k == x {
        ShlAdd(c[x], 1, 15 - k);
        ShlPow2(0, 15 - k);
        assert Pow2(0) == 1 by {
          Pow2Zero();
        }
      }
    }
  }

  lemma PosZero(c: Counts)
    ensures Pos(c, 0) == 0
  {
    ShlZero(15);
  }

  /** The codes of all lengths take as many strings as the lengths claim. */
  lemma {:induction false} PosIsKraft(b: seq<nat>)
    requires forall i | 0 <= i < |b| :: b[i] <= BMAX
    ensures Pos(CountsOf(b), 15) == KraftSum(b)
  {
    hide Pos, Pow2;
    if b == [] {
      NoCodes(CountsOf(b), 15);
    } else {
      var a, x := b[..|b| - 1], b[|b| - 1];
      PosIsKraft(a);
      PosOfOneMore(CountsOf(a), x, 15);
      assert CountsOf(b) == CountsOf(a)[x := CountsOf(a)[x] + 1];
    }
  }

  lemma {:induction false} NoCodes(c: Counts, k: nat)
    requires k <= 15 && forall j | 1 <= j <= 15 :: c[j] == 0
    ensures Pos(c, k) == 0
  {
    hide Pos;
    if k == 0 {
      PosZero(c);
    } else {
      NoCodes(c, k - 1);
      PosNext(c, k);
      ShlZero(15 - k);
    }
  }

  /** Lengths are over-subscribed exactly when their Kraft sum exceeds one. */
  lemma OverIsKraft(b: seq<nat>)
    requires forall i | 0 <= i < |b| :: b[i] <= BMAX
    ensures Over(CountsOf(b)) <==> KraftSum(b) > Pow2(15)
  {
    hide Over, Pow2, Shl;
    PosIsKraft(b);
    OverAtMax(CountsOf(b), 15);
    ShlNone(End(CountsOf(b), 15));
  }

  /** One symbol has a code of one bit, the others have none. */
  predicate OneBit(b: seq<nat>) {
    exists y :: 0 <= y < |b| && b[y] == 1 && forall z | 0 <= z < |b| && z != y :: b[z] == 0
  }

  /** The lengths claim every string once, or there is but a single code of one bit. */
  predicate Decodable(b: seq<nat>) {
    Lengths(b) && (KraftSum(b) == Pow2(15) || OneBit(b))
  }

  /** No symbol has a code. */
  predicate NoCode(b: seq<nat>) { |b| > 0 && forall i | 0 <= i < |b| :: b[i] == 0 }

  /** A literal/length and a distance code: without any distance code the data can still be all literals. */
  predicate DecodablePair(ll: seq<nat>, dl: seq<nat>) {
    Decodable(ll) && (Decodable(dl) || NoCode(dl))
  }

  /** What inflate asks beyond that: at most 30 distance lengths, and without a distance code at most 257 others. */
  predicate TrimmedPair(ll: seq<nat>, dl: seq<nat>) {
    |dl| <= 30 && (NoCode(dl) ==> |ll| <= 257)
  }

  /** The codes end where the strings do just if their Kraft sum is one. */
  lemma EndIsKraft(b: seq<nat>, g: nat)
    requires Lengths(b) && 1 <= g <= 15 && forall j | g < j <= 15 :: CountsOf(b)[j] == 0
    ensures End(CountsOf(b), g) == Pow2(g) <==> KraftSum(b) == Pow2(15)
  {
    hide Pow2, Shl, End, Pos, CountsOf;
    var c := CountsOf(b);
    PosIsKraft(b);
    PosStays(c, g, 15);
    PosIs(c, g);
    ShlPow2(g, 15 - g);
    if End(c, g) < Pow2(g) {
      ShlGap(End(c, g), Pow2(g), 15 - g);
    } else if End(c, g) > Pow2(g) {
      ShlGap(Pow2(g), End(c, g), 15 - g);
    }
  }

  lemma PosIs(c: Counts, g: nat)
    requires g <= 15
    ensures Pos(c, g) == Shl(End(c, g), 15 - g)
  {
  }

  lemma {:induction false} PosStays(c: Counts, g: nat, k: nat)
    requires 1 <= g <= k <= 15 && forall j | g < j <= 15 :: c[j] == 0
    ensures Pos(c, k) == Pos(c, g)
    decreases k
  {
    hide Pos;
    if g < k {
      PosStays(c, g, k - 1);
      PosNext(c, k);
      ShlZero(15 - k);
    }
  }
}
