/** huft_build of inftrees.c as a whole, and what its tables decode. */
module InflateTrees {
  import opened Arith
  import opened CanonicalCode
  import opened HuftSpec
  import opened HuftInvariant
  import opened HuftSteps
  import opened HuftLog
  import opened TableBuilder
  import opened InfTrees
  import opened HuftDecode
  import opened CodeLengths
  import opened CodeSort

  /** The return codes of zlib that inflate uses. */
  datatype Ret = Z_OK | Z_STREAM_END | Z_DATA_ERROR | Z_BUF_ERROR

  datatype Option<+T> = None | Some(value: T)

  /** What the caller must pass: lengths of at most 15 bits, and lists that reach every non-simple symbol. */
  predicate Usable(b: seq<nat>, s: nat, d: seq<nat>, e: seq<nat>) {
    Lengths(b) && (|b| > s ==> |b| - s <= |d| && |b| - s <= |e|)
  }

  /** What the code generator is given for these lengths. */
  function JobOf(b: seq<nat>, s: nat, d: seq<nat>, e: seq<nat>, want: nat): Job
    requires var g := MaxLen(CountsOf(b), 15); g > 0 && End(CountsOf(b), g) <= Pow2(g)
  {
    var c := CountsOf(b);
    var g := MaxLen(c, 15);
    Job(Fill(c, g), g, Width(c, want), Order(b, 15), s, d, e)
  }

  lemma {:induction false} SymsBelow(b: seq<nat>, k: nat)
    ensures forall i | 0 <= i < |SymsOf(b, k)| :: SymsOf(b, k)[i] < |b| && b[SymsOf(b, k)[i]] == k
    ensures forall i | 0 <= i < |SymsOf(b, k)| :: Count(b[..SymsOf(b, k)[i]], k) == i
  {
    if b != [] {
      var n := |b| - 1;
      SymsBelow(b[..n], k);
      forall i | 0 <= i < |SymsOf(b, k)|
        ensures SymsOf(b, k)[i] < |b| && b[SymsOf(b, k)[i]] == k && Count(b[..SymsOf(b, k)[i]], k) == i
      {
        var y := SymsOf(b, k)[i];
        assert b[..n][..(if y < n then y else n)] == b[..y];
      }
    }
  }

  lemma {:induction false} OrderBelow(b: seq<nat>, k: nat)
    ensures forall i | 0 <= i < |Order(b, k)| :: Order(b, k)[i] < |b|
    ensures k <= 15 ==> |Order(b, k)| == Off(CountsOf(b), k + 1)
  {
    hide CountsOf;
    if k > 0 {
      OrderBelow(b, k - 1);
      SymsBelow(b, k);
      if k <= 15 {
        CountAt(b, k);
      }
    }
  }

  lemma CountAt(b: seq<nat>, k: nat)
    requires k <= 15
    ensures CountsOf(b)[k] == Count(b, k)
  {
  }

  lemma OrderLast(b: seq<nat>, m: nat)
    requires 1 <= m
    ensures Order(b, m) == Order(b, m - 1) + SymsOf(b, m)
  {
    hide SymsOf;
  }

  /** In the sorted list, the r-th symbol of length k follows all shorter ones. */
  lemma OrderIndex(b: seq<nat>, k: nat, r: nat, m: nat)
    requires 1 <= k <= m <= 15 && r < |SymsOf(b, k)|
    ensures Off(CountsOf(b), k) + r < |Order(b, m)|
    ensures Order(b, m)[Off(CountsOf(b), k) + r] == SymsOf(b, k)[r]
    decreases m
  {
    hide CountsOf, Off, SymsOf, Order;
    OrderBelow(b, m - 1);
    OrderLast(b, m);
    if k < m {
      OrderIndex(b, k, r, m - 1);
    }
  }

  /** ... and has exactly r earlier symbols of its own length. */
  lemma OrderAt(b: seq<nat>, k: nat, r: nat, m: nat)
    requires 1 <= k <= m <= 15 && r < Count(b, k)
    ensures Off(CountsOf(b), k) + r < |Order(b, m)|
    ensures var y := Order(b, m)[Off(CountsOf(b), k) + r];
      y == SymsOf(b, k)[r] && y < |b| && b[y] == k && Count(b[..y], k) == r
  {
    hide CountsOf, Off, SymsOf, Order, Count;
    OrderIndex(b, k, r, m);
    SymsBelow(b, k);
  }

  lemma {:induction false} SymAt(b: seq<nat>, y: nat)
    requires y < |b|
    ensures Count(b[..y], b[y]) < Count(b, b[y]) && SymsOf(b, b[y])[Count(b[..y], b[y])] == y
    decreases |b|
  {
    var n := |b| - 1;
    if y < n {
      SymAt(b[..n], y);
      assert b[..n][..y] == b[..y];
    }
  }

  lemma {:induction false} TotalCount(b: seq<nat>)
    requires forall i | 0 <= i < |b| :: b[i] <= 15
    ensures Off(CountsOf(b), 16) + Count(b, 0) == |b|
  {
    hide Off, CountsOf;
    if b == [] {
      CountsNone();
      OffNone(CountsOf(b), 16);
    } else {
      var n := |b| - 1;
      TotalCount(b[..n]);
      OneMore(b);
      OffOneMore(CountsOf(b[..n]), b[n], 16);
    }
  }

  lemma CountsNone()
    ensures forall k | 0 <= k < 16 :: CountsOf([])[k] == 0
  {
  }

  lemma OneMore(b: seq<nat>)
    requires b != [] && b[|b| - 1] <= 15
    ensures var a := b[..|b| - 1]; CountsOf(b) == CountsOf(a)[b[|b| - 1] := CountsOf(a)[b[|b| - 1]] + 1]
  {
  }

  lemma {:induction false} OffNone(c: Counts, k: nat)
    requires k <= 16 && forall j | 1 <= j < 16 :: c[j] == 0
    ensures Off(c, k) == 0
  {
    if k > 1 {
      OffNone(c, k - 1);
    }
  }

  lemma {:induction false} OffOneMore(c: Counts, x: nat, k: nat)
    requires x <= 15 && k <= 16
    ensures Off(c[x := c[x] + 1], k) == Off(c, k) + (if 1 <= x < k then 1 else 0)
  {
    if k > 1 {
      OffOneMore(c, x, k - 1);
    }
  }

  lemma MaxIsZero(b: seq<nat>)
    requires Lengths(b)
    ensures Count(b, 0) == |b| <==> MaxLen(CountsOf(b), 15) == 0
    ensures forall i | 0 <= i < |b| :: b[i] <= MaxLen(CountsOf(b), 15)
  {
    hide CountsOf, Off, Count;
    var c := CountsOf(b);
    var g := MaxLen(c, 15);
    TotalCount(b);
    if g == 0 {
      OffNone(c, 16);
    } else {
      CountAt(b, g);
      OffAtLeast(c, g, 16);
    }
    forall i | 0 <= i < |b|
      ensures b[i] <= g
    {
      SymAt(b, i);
      CountAt(b, b[i]);
    }
  }

  lemma OffAtLeast(c: Counts, g: nat, k: nat)
    requires 1 <= g < k <= 16
    ensures c[g] <= Off(c, k)
  {
    OffMono(c, g + 1, k);
  }

  /** The code generator's job for lengths that are not over-subscribed is well formed. */
  lemma JobValid(b: seq<nat>, s: nat, d: seq<nat>, e: seq<nat>, want: nat)
    requires Usable(b, s, d, e) && MaxLen(CountsOf(b), 15) > 0 && !Over(CountsOf(b))
    ensures End(CountsOf(b), MaxLen(CountsOf(b), 15)) <= Pow2(MaxLen(CountsOf(b), 15))
    ensures JobOf(b, s, d, e, want).Valid()
  {
    hide Pow2, Off, End, Order, Over, CountsOf, NextCode, Pos;
    var c := CountsOf(b);
    var g := MaxLen(c, 15);
    OverAtMax(c, g);
    FillComplete(c, g);
    var job := JobOf(b, s, d, e, want);
    WidthOK(c, want);
    PosAtWidth(c, job.c, g, job.l);
    OrderBelow(b, 15);
    OffAtLeast(c, g, 16);
    OffFill(c, job.c, g, 16);
    MinBelowMax(c);
  }

  lemma MinBelowMax(c: Counts)
    ensures MaxLen(c, 15) > 0 ==> 1 <= MinLen(c, 1) <= MaxLen(c, 15)
  {
    var g := MaxLen(c, 15);
  }

  lemma WidthOK(c: Counts, want: nat)
    requires MaxLen(c, 15) > 0
    ensures 1 <= MinLen(c, 1) <= Width(c, want) <= MaxLen(c, 15)
    ensures MaxLen(c, 15) <= Width(c, want) || want <= Width(c, want)
    ensures want >= MinLen(c, 1) ==> Width(c, want) <= want
  {
    MinBelowMax(c);
  }

  lemma PosAtWidth(c: Counts, c': Counts, g: nat, l: nat)
    requires 1 <= MinLen(c, 1) <= l <= g == MaxLen(c, 15) && |c'| == 16
    requires c' == c[g := c'[g]] && c'[g] >= c[g]
    ensures Pos(c', l) > 0
  {
    hide Pos, Shl, Pow2, End;
    var k := MinLen(c, 1);
    PosMono(c', k, l);
    PosNext(c', k);
    ShlMono(1, c'[k], 15 - k);
    ShlGap(0, 1, 15 - k);
    Pow2Pos(15 - k);
  }

  lemma {:induction false} OffFill(c: Counts, c': Counts, g: nat, k: nat)
    requires g <= 15 && k <= 16 && c' == c[g := c'[g]] && c'[g] >= c[g]
    ensures Off(c, k) <= Off(c', k)
  {
    if k > 1 {
      OffFill(c, c', g, k - 1);
    }
  }

  /** The result of huft_build, case by case, for lengths b, wanted width want and hn entries already used. */
  ghost predicate Outcome(b: seq<nat>, s: nat, d: seq<nat>, e: seq<nat>, want: nat, hp0: seq<Huft>, hn: nat,
                          hp: seq<Huft>, r: Ret, t: Option<nat>, m: nat, hn': nat, tabs: Tabs)
    requires Usable(b, s, d, e)
  {
    var c := CountsOf(b);
    var g := MaxLen(c, 15);
    if g == 0 then r == Z_OK && t == None && m == 0 && hn' == hn && hp == hp0
    else if Over(c) then r == Z_DATA_ERROR && t == None && m == Width(c, want) && hn' == hn && hp == hp0
    else
      JobValid(b, s, d, e, want);
      var job := JobOf(b, s, d, e, want);
      if hn + TotalUsed(job) > MANY then r == Z_DATA_ERROR
      else
        && r == (if End(c, g) < Pow2(g) && g != 1 then Z_BUF_ERROR else Z_OK)
        && t == Some(hn) && m == job.l && hn' == hn + TotalUsed(job)
        && Built(job, hp, tabs, hn, hn') && Untouched(job, hp0, hp, tabs, hn, hn')
  }

  /** When there are tables, the log says how they came to be. */
  ghost predicate Once(b: seq<nat>, s: nat, d: seq<nat>, e: seq<nat>, want: nat, hp0: seq<Huft>, hn: nat,
                       hp: seq<Huft>, t: Option<nat>, hn': nat, tabs: Tabs, log: seq<nat>)
    requires Usable(b, s, d, e)
  {
    t.Some? ==>
      && MaxLen(CountsOf(b), 15) > 0 && !Over(CountsOf(b))
      && (JobValid(b, s, d, e, want); WrittenOnce(JobOf(b, s, d, e, want), hp0, hp, tabs, hn, hn', log))
  }

  method HuftBuild(b: seq<nat>, s: nat, d: seq<nat>, e: seq<nat>, want: nat, hp: array<Huft>, hn: nat, v: array<nat>)
    returns (r: Ret, t: Option<nat>, m: nat, hn': nat, ghost tabs: Tabs, ghost log: seq<nat>)
    requires Usable(b, s, d, e) && |b| <= v.Length && hn <= hp.Length && hn <= MANY
    requires hp.Length >= MANY || ((forall i | 0 <= i < |b| :: b[i] <= want) && hn + Pow2(want) <= hp.Length)
    modifies hp, v
    ensures Outcome(b, s, d, e, want, old(hp[..]), hn, hp[..], r, t, m, hn', tabs)
    ensures Once(b, s, d, e, want, old(hp[..]), hn, hp[..], t, hn', tabs, log)
  {
    hide Pow2, Off, End, Order, Over, NextCode, Pos, Built, Untouched, TotalUsed, Fill, CountsOf, JobOf, WrittenOnce;
    ghost var hp0 := hp[..];
    tabs, log := map[], [];
    var c := CountLengths(b);
    MaxIsZero(b);
    CountAt(b, 0);
    if c[0] == |b| {
      return Z_OK, None, 0, hn, tabs, log;
    }
    var k, g, l := FindBounds(c, want);
    var y := PatternsLeft(c, k, g);
    OverFrom(c[..], k, g);
    if y < 0 {
      return Z_DATA_ERROR, None, l, hn, tabs, log;
    }
    JobValid(b, s, d, e, want);
    ghost var c0 := c[..];
    c[g] := c[g] + y;
    assert c[..] == c0[g := c0[g] + y];
    var x := Offsets(c, g);
    SortFacts(b, g, c[..], y);
    var n := SortValues(b, g, x, v, CountsOf(b));
    var job := Job(c[..], g, l, v[..n], s, d, e);
    assert job == JobOf(b, s, d, e, want) by {
      JobIs(b, s, d, e, want, job);
    }
    RoomIs(b, s, d, e, want, hp.Length, hn);
    var ok;
    ok, hn', tabs, log := GenerateCodes(job, hp, k, hn);
    if !ok {
      return Z_DATA_ERROR, None, l, hn', tabs, log;
    }
    OnceUntouched(job, hp0, hp[..], tabs, hn, hn', log);
    return if y != 0 && g != 1 then Z_BUF_ERROR else Z_OK, Some(hn), l, hn', tabs, log;
  }

  /** The lengths between the shortest and the longest decide whether there are too many codes. */
  lemma OverFrom(c: Counts, k: nat, g: nat)
    requires 1 <= k <= g <= 15 && k == MinLen(c, 1) && g == MaxLen(c, 15)
    ensures Over(c) <==> exists j :: k <= j <= g && End(c, j) > Pow2(j)
  {
    hide End, Pow2;
    OverAtMax(c, g);
  }

  lemma SortFacts(b: seq<nat>, g: nat, c: Counts, y: nat)
    requires Lengths(b) && 1 <= g <= 15 && g == MaxLen(CountsOf(b), 15)
    requires y == Pow2(g) - End(CountsOf(b), g) && c == CountsOf(b)[g := CountsOf(b)[g] + y]
    ensures forall k | 1 <= k <= g :: Off(c, k) == Off(CountsOf(b), k)
    ensures Off(CountsOf(b), 16) <= |b|
    ensures forall i | 0 <= i < |b| :: b[i] <= g
  {
    hide Off, CountsOf, End, Pow2, NextCode;
    FillComplete(CountsOf(b), g);
    TotalCount(b);
    MaxIsZero(b);
  }

  lemma JobIs(b: seq<nat>, s: nat, d: seq<nat>, e: seq<nat>, want: nat, job: Job)
    requires Lengths(b) && var g := MaxLen(CountsOf(b), 15); g > 0 && End(CountsOf(b), g) <= Pow2(g)
    requires job.g == MaxLen(CountsOf(b), 15)
    requires job.c == CountsOf(b)[job.g := CountsOf(b)[job.g] + (Pow2(job.g) - End(CountsOf(b), job.g))]
    requires job.l == Width(CountsOf(b), want) && job.v == Order(b, job.g) && job.s == s && job.d == d && job.e == e
    ensures job == JobOf(b, s, d, e, want)
  {
    hide Off, End, Pow2, NextCode, Order, CountsOf;
    forall j | job.g < j <= 15
      ensures Count(b, j) == 0
    {
      CountAt(b, j);
    }
    OrderTail(b, job.g, 15);
  }

  lemma RoomIs(b: seq<nat>, s: nat, d: seq<nat>, e: seq<nat>, want: nat, size: nat, hn: nat)
    requires Usable(b, s, d, e) && MaxLen(CountsOf(b), 15) > 0 && !Over(CountsOf(b))
    requires size >= MANY || ((forall i | 0 <= i < |b| :: b[i] <= want) && hn + Pow2(want) <= size)
    ensures End(CountsOf(b), MaxLen(CountsOf(b), 15)) <= Pow2(MaxLen(CountsOf(b), 15))
    ensures Room(JobOf(b, s, d, e, want), size, hn)
  {
    hide Off, End, Pow2, NextCode, Order, CountsOf;
    var c := CountsOf(b);
    var g := MaxLen(c, 15);
    OverAtMax(c, g);
    if size < MANY {
      MaxUsed(b);
      MinBelowMax(c);
      WidthOK(c, want);
      Pow2Mono(Width(c, want), want);
    }
  }

  lemma MaxUsed(b: seq<nat>)
    requires Lengths(b) && MaxLen(CountsOf(b), 15) > 0
    ensures exists i :: 0 <= i < |b| && b[i] == MaxLen(CountsOf(b), 15)
  {
    hide Order, Off;
    var g := MaxLen(CountsOf(b), 15);
    CountAt(b, g);
    SymsBelow(b, g);
    assert b[SymsOf(b, g)[0]] == g;
  }
}
