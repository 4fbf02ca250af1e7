/** The counting loops of huft_build in inftrees.c, on the arrays it uses. */
module CodeSort {
  import opened Arith
  import opened CanonicalCode
  import opened HuftSpec
  import opened CodeLengths

  method CountLengths(b: seq<nat>) returns (c: array<nat>)
    requires Lengths(b)
    ensures fresh(c) && c.Length == 16 && c[..] == CountsOf(b)
  {
    c := new nat[16](_ => 0);
    var i := 0;
    while i < |b|
      invariant 0 <= i <= |b|
      invariant forall k: nat | k < 16 :: c[k] == Count(b[..i], k)
    {
      assert b[..i + 1][..i] == b[..i];
      c[b[i]] := c[b[i]] + 1;
      i := i + 1;
    }
    assert b[..i] == b;
  }

  /** The shortest and longest lengths in use, and the lookup width kept between them. */
  method FindBounds(c: array<nat>, want: nat) returns (k: nat, g: nat, l: nat)
    requires c.Length == 16 && exists j :: 1 <= j <= 15 && c[j] > 0
    ensures k == MinLen(c[..], 1) && g == MaxLen(c[..], 15) && l == Width(c[..], want)
    ensures 1 <= k <= g <= 15 && k <= l <= g
  {
    l := want;
    var j := 1;
    while j <= BMAX && c[j] == 0
      invariant 1 <= j <= 16 && MinLen(c[..], j) == MinLen(c[..], 1)
    {
      j := j + 1;
    }
    k := j;
    if l < j {
      l := j;
    }
    var i := BMAX;
    while i > 0 && c[i] == 0
      invariant 0 <= i <= 15 && MaxLen(c[..], i) == MaxLen(c[..], 15)
      invariant forall j | i < j <= 15 :: c[j] == 0
    {
      i := i - 1;
    }
    g := i;
    if l > i {
      l := i;
    }
  }

  /** Deducts the codes of each length from the patterns left; negative as soon as they do not suffice. */
  method PatternsLeft(c: array<nat>, k: nat, g: nat) returns (y: int)
    requires c.Length == 16 && 1 <= k <= g <= 15 && forall j | 1 <= j < k :: c[j] == 0
    ensures y < 0 <==> exists j :: k <= j <= g && End(c[..], j) > Pow2(j)
    ensures y >= 0 ==> y == Pow2(g) - End(c[..], g)
  {
    hide Pow2;
    EmptyStart(c[..], k);
    var j := k;
    y := Pow2(j);
    while j < g
      invariant k <= j <= g && y == Pow2(j) - NextCode(c[..], j)
      invariant forall m | k <= m < j :: End(c[..], m) <= Pow2(m)
    {
      y := y - c[j];
      if y < 0 {
        return;
      }
      assert End(c[..], j) <= Pow2(j);
      Twice(j);
      j := j + 1;
      y := 2 * y;
    }
    y := y - c[g];
  }

  lemma Twice(j: nat)
    ensures Pow2(j + 1) == 2 * Pow2(j)
  {
  }

  lemma EmptyStart(c: Counts, k: nat)
    requires 1 <= k <= 15 && forall j | 1 <= j < k :: c[j] == 0
    ensures NextCode(c, k) == 0
  {
    if k > 1 {
      EmptyStart(c, k - 1);
    }
  }

  /** Where the symbols of each length begin in the sorted list. */
  method Offsets(c: array<nat>, g: nat) returns (x: array<nat>)
    requires c.Length == 16 && 1 <= g <= 15
    ensures fresh(x) && x.Length == 16 && forall k | 1 <= k <= g :: x[k] == Off(c[..], k)
  {
    hide Off;
    x := new nat[16](_ => 0);
    var i, j := 1, 0;
    x[1] := 0;
    ghost var cs: Counts := c[..];
    OffFirst(cs);
    while i < g
      invariant 1 <= i <= g && j == Off(cs, i) && c[..] == cs
      invariant forall k | 1 <= k <= i :: x[k] == Off(cs, k)
    {
      OffStep(cs, i);
      j := j + c[i];
      x[i + 1] := j;
      i := i + 1;
    }
  }

  lemma OffFirst(c: Counts)
    ensures Off(c, 1) == 0
  {
  }

  /** The symbols of length k below i stand in their stretch of v, and x[k] is where the next one goes. */
  ghost predicate Bucket(b: seq<nat>, c: Counts, x: seq<nat>, v: seq<nat>, i: nat, k: nat)
    requires |x| == 16 && 1 <= k <= 15 && i <= |b|
  {
    && x[k] == Off(c, k) + Count(b[..i], k) && x[k] <= Off(c, k + 1) <= |v|
    && v[Off(c, k)..x[k]] == SymsOf(b[..i], k)
  }

  /** While sorting: the symbols below i are in place, length by length. */
  ghost predicate Sorted(b: seq<nat>, c: Counts, x: seq<nat>, v: seq<nat>, i: nat, g: nat)
    requires |x| == 16 && g <= 15 && i <= |b|
  {
    forall k | 1 <= k <= g :: Bucket(b, c, x, v, i, k)
  }

  lemma {:induction false} CountPrefix(b: seq<nat>, i: nat, k: nat)
    requires i <= |b|
    ensures Count(b[..i], k) <= Count(b, k)
    ensures i < |b| && b[i] == k ==> Count(b[..i], k) < Count(b, k)
    decreases |b|
  {
    if i == |b| {
      assert b[..i] == b;
    } else {
      var a := b[..|b| - 1];
      assert a[..i] == b[..i];
      CountPrefix(a, i, k);
    }
  }

  lemma BucketStep(b: seq<nat>, c: Counts, x: seq<nat>, v: seq<nat>, i: nat, k: nat)
    requires |x| == 16 && i < |b| && c == CountsOf(b) && 1 <= k <= 15 && 1 <= b[i] <= 15
    requires Bucket(b, c, x, v, i, k) && Bucket(b, c, x, v, i, b[i]) && x[b[i]] < |v|
    requires k < b[i] ==> Off(c, k + 1) <= Off(c, b[i])
    requires b[i] < k ==> Off(c, b[i] + 1) <= Off(c, k)
    requires x[b[i]] < Off(c, b[i] + 1)
    ensures Bucket(b, c, x[b[i] := x[b[i]] + 1], v[x[b[i]] := i], i + 1, k)
  {
    hide Off, CountsOf;
    assert b[..i + 1][..i] == b[..i];
    var m := b[i];
    var x', v' := x[m := x[m] + 1], v[x[m] := i];
    if k == m {
      assert v'[Off(c, k)..x'[k]] == v[Off(c, k)..x[k]] + [i];
    } else {
      assert v'[Off(c, k)..x'[k]] == v[Off(c, k)..x[k]];
    }
  }

  lemma BucketSkip(b: seq<nat>, c: Counts, x: seq<nat>, v: seq<nat>, i: nat, k: nat)
    requires |x| == 16 && i < |b| && 1 <= k <= 15 && b[i] != k && Bucket(b, c, x, v, i, k)
    ensures Bucket(b, c, x, v, i + 1, k)
  {
    hide Off;
    assert b[..i + 1][..i] == b[..i];
  }

  lemma SortStep(b: seq<nat>, c: Counts, x: seq<nat>, v: seq<nat>, i: nat, g: nat)
    requires |x| == 16 && g <= 15 && i < |b| && c == CountsOf(b)
    requires Sorted(b, c, x, v, i, g) && b[i] <= g
    ensures b[i] == 0 ==> Sorted(b, c, x, v, i + 1, g)
    ensures b[i] > 0 ==> x[b[i]] < |v| && Sorted(b, c, x[b[i] := x[b[i]] + 1], v[x[b[i]] := i], i + 1, g)
  {
    hide Off, Bucket;
    var m, i' := b[i], i + 1;
    if m == 0 {
      forall k | 1 <= k <= g
        ensures Bucket(b, c, x, v, i', k)
      {
        BucketSkip(b, c, x, v, i, k);
      }
    } else {
      BucketRoom(b, c, x, v, i, m);
      var x', v' := x[m := x[m] + 1], v[x[m] := i];
      forall k | 1 <= k <= g
        ensures Bucket(b, c, x', v', i', k)
      {
        assert Bucket(b, c, x, v, i, k);
        if k < m {
          OffMono(c, k + 1, m);
        } else if m < k {
          OffMono(c, m + 1, k);
        }
        BucketStep(b, c, x, v, i, k);
      }
    }
  }

  lemma BucketRoom(b: seq<nat>, c: Counts, x: seq<nat>, v: seq<nat>, i: nat, m: nat)
    requires |x| == 16 && i < |b| && c == CountsOf(b) && 1 <= m <= 15 && b[i] == m && Bucket(b, c, x, v, i, m)
    ensures x[m] < Off(c, m + 1) <= |v|
  {
    CountPrefix(b, i, m);
    OffStep(c, m);
  }

  lemma SortStart(b: seq<nat>, c: Counts, x: seq<nat>, v: seq<nat>, g: nat)
    requires |x| == 16 && g <= 15 && c == CountsOf(b) && Off(c, 16) <= |v|
    requires forall k | 1 <= k <= g :: x[k] == Off(c, k)
    ensures Sorted(b, c, x, v, 0, g)
  {
    hide Off;
    forall k | 1 <= k <= g
      ensures Bucket(b, c, x, v, 0, k)
    {
      OffStep(c, k);
      OffMono(c, k + 1, 16);
      assert b[..0] == [];
    }
  }

  lemma {:induction false} SortEnd(b: seq<nat>, c: Counts, x: seq<nat>, v: seq<nat>, g: nat, k: nat)
    requires |x| == 16 && k <= g <= 15 && c == CountsOf(b) && Sorted(b, c, x, v, |b|, g)
    ensures Off(c, k + 1) <= |v| && v[..Off(c, k + 1)] == Order(b, k)
    ensures k > 0 ==> x[k] == Off(c, k + 1)
    decreases k
  {
    if k > 0 {
      SortEnd(b, c, x, v, g, k - 1);
      OffStep(c, k);
      assert Bucket(b, c, x, v, |b|, k);
      assert b[..|b|] == b;
      assert v[..Off(c, k + 1)] == v[..Off(c, k)] + v[Off(c, k)..Off(c, k + 1)];
    }
  }

  lemma {:induction false} OrderTail(b: seq<nat>, g: nat, k: nat)
    requires g <= k <= 15 && forall j | g < j <= 15 :: Count(b, j) == 0
    ensures Order(b, k) == Order(b, g)
    decreases k
  {
    if k > g {
      OrderTail(b, g, k - 1);
    }
  }

  /** Puts the symbols in v by length; returns how many there are. */
  method SortValues(b: seq<nat>, g: nat, x: array<nat>, v: array<nat>, ghost c: Counts) returns (n: nat)
    requires Lengths(b) && c == CountsOf(b) && 1 <= g <= 15 && forall i | 0 <= i < |b| :: b[i] <= g
    requires x.Length == 16 && x != v && forall k | 1 <= k <= g :: x[k] == Off(c, k)
    requires Off(c, 16) <= v.Length
    modifies x, v
    ensures n <= v.Length && v[..n] == Order(b, g) && n == Off(c, g + 1)
  {
    hide Off, Sorted, CountsOf, Order;
    SortStart(b, c, x[..], v[..], g);
    var i: nat := 0;
    while i < |b|
      invariant 0 <= i <= |b|
      invariant Sorted(b, c, x[..], v[..], i, g)
    {
      SortStep(b, c, x[..], v[..], i, g);
      var j := b[i];
      if j != 0 {
        ghost var x0, v0 := x[..], v[..];
        v[x[j]] := i;
        x[j] := x[j] + 1;
        assert v[..] == v0[x0[j] := i] && x[..] == x0[j := x0[j] + 1];
      }
      i := i + 1;
    }
    SortEnd(b, c, x[..], v[..], g, g);
    n := x[g];
  }
}
