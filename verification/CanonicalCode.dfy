/**
 * The canonical prefix code of section 3.2.2 of RFC 1951, seen as a partition of the 15-bit strings: a code
 * of length k with value x owns the 2^(15-k) strings that start with it, the interval from Shl(x, 15-k).
 */
module CanonicalCode {
  import opened Arith

  const BMAX: nat := 15

  /** How many codes there are of each length; entry 0 is never used. */
  type Counts = c: seq<nat> | |c| == 16 witness seq(16, _ => 0)

  /** Step 2 of section 3.2.2: the smallest code value of each length. */
  function NextCode(c: Counts, k: nat): nat
    requires k <= 16
  {
    if k <= 1 then 0 else 2 * (NextCode(c, k - 1) + c[k - 1])
  }

  /** The first pattern of length k that is not a code. */
  function End(c: Counts, k: nat): nat
    requires k <= 15
  {
    if k == 0 then 0 else NextCode(c, k) + c[k]
  }

  /** Where the codes of length at most k end, counted in 15-bit strings. */
  function Pos(c: Counts, k: nat): nat
    requires k <= 15
  {
    Shl(End(c, k), 15 - k)
  }

  /** Every 15-bit string starts with a code, and g is the longest length in use. */
  ghost predicate Complete(c: Counts, g: nat) {
    1 <= g <= 15 && End(c, g) == Pow2(g) && c[g] > 0 && forall k | g < k <= 15 :: c[k] == 0
  }

  /** The length of the code that owns the string x. */
  function LenFrom(c: Counts, x: nat, k: nat): (r: nat)
    requires 1 <= k <= 15
    ensures k <= r <= 15
    ensures r < 15 ==> x < Pos(c, r)
    ensures r > k ==> Pos(c, r - 1) <= x
    decreases 15 - k
  {
    if k == 15 || x < Pos(c, k) then k else LenFrom(c, x, k + 1)
  }

  function LenAt(c: Counts, x: nat): (r: nat)
    ensures 1 <= r <= 15
  {
    LenFrom(c, x, 1)
  }

  /** Which of the codes of its length owns the string x. */
  function RankAt(c: Counts, x: nat): int {
    Shr(x, 15 - LenAt(c, x)) - NextCode(c, LenAt(c, x))
  }

  lemma PosNext(c: Counts, k: nat)
    requires 1 <= k <= 15
    ensures Shl(NextCode(c, k), 15 - k) == Pos(c, k - 1)
    ensures Pos(c, k) == Pos(c, k - 1) + Shl(c[k], 15 - k)
  {
    ShlAdd(NextCode(c, k), c[k], 15 - k);
    if k == 1 {
      ShlZero(14);
      ShlZero(15);
    } else {
      ShlShl(End(c, k - 1), 1, 15 - k);
      assert Shl(End(c, k - 1), 1) == 2 * Shl(End(c, k - 1), 0);
    }
  }

  lemma {:induction false} PosMono(c: Counts, k: nat, m: nat)
    requires k <= m <= 15
    ensures Pos(c, k) <= Pos(c, m)
    decreases m - k
  {
    if k < m {
      PosNext(c, m);
      PosMono(c, k, m - 1);
    }
  }

  lemma LenAtMono(c: Counts, x: nat, y: nat)
    requires x <= y
    ensures LenAt(c, x) <= LenAt(c, y)
  {
    var k, m := LenAt(c, x), LenAt(c, y);
    if m < k {
      PosMono(c, m, k - 1);
    }
  }

  lemma LenAtIs(c: Counts, x: nat, k: nat)
    requires 1 <= k <= 15 && Pos(c, k - 1) <= x < Pos(c, k)
    ensures LenAt(c, x) == k
  {
    var r := LenAt(c, x);
    if r < k {
      PosMono(c, r, k - 1);
    } else if r > k {
      PosMono(c, k, r - 1);
    }
  }

  /** The r-th code of length k owns exactly the strings of its interval. */
  lemma OwnedBy(c: Counts, k: nat, r: nat, x: nat)
    requires 1 <= k <= 15 && r < c[k]
    requires var s := Shl(NextCode(c, k) + r, 15 - k); s <= x < s + Pow2(15 - k)
    ensures LenAt(c, x) == k && RankAt(c, x) == r
    ensures Pos(c, k - 1) <= x < Pos(c, k)
  {
    var code := NextCode(c, k) + r;
    ShlAdd(NextCode(c, k), r, 15 - k);
    PosNext(c, k);
    ShlGap(code, End(c, k), 15 - k);
    LenAtIs(c, x, k);
    SplitUnique(x, 15 - k, x - Shl(code, 15 - k), code);
  }

  lemma ShlMono(a: nat, b: nat, n: nat)
    requires a <= b
    ensures Shl(a, n) <= Shl(b, n)
  {
    if a < b {
      ShlGap(a, b, n);
    }
  }

  lemma CompletePos(c: Counts, g: nat, k: nat)
    requires Complete(c, g) && g <= k <= 15
    ensures Pos(c, k) == Pow2(15)
    decreases k - g
  {
    if k == g {
      ShlPow2(g, 15 - g);
    } else {
      CompletePos(c, g, k - 1);
      PosNext(c, k);
      ShlZero(15 - k);
    }
  }

  lemma OwnerPos(c: Counts, g: nat, x: nat)
    requires Complete(c, g) && x < Pow2(15)
    ensures LenAt(c, x) <= g
    ensures Pos(c, LenAt(c, x) - 1) <= x < Pos(c, LenAt(c, x))
  {
    var k := LenAt(c, x);
    CompletePos(c, g, 15);
    if g < k {
      CompletePos(c, g, k - 1);
    }
    if k == 1 {
      ShlZero(15);
    }
  }

  /** Conversely, a string lies in the interval of the code found for it. */
  lemma OwnerOf(c: Counts, g: nat, x: nat)
    requires Complete(c, g) && x < Pow2(15)
    ensures LenAt(c, x) <= g
    ensures 0 <= RankAt(c, x) < c[LenAt(c, x)]
    ensures var s := Shl(NextCode(c, LenAt(c, x)) + RankAt(c, x), 15 - LenAt(c, x));
      s <= x < s + Pow2(15 - LenAt(c, x))
  {
    hide Low, Shr, Shl, Pow2, LenAt, NextCode;
    var k := LenAt(c, x);
    OwnerPos(c, g, x);
    var p := Shr(x, 15 - k);
    SplitAt(x, 15 - k);
    PosNext(c, k);
    if p < NextCode(c, k) {
      ShlGap(p, NextCode(c, k), 15 - k);
    }
    if p >= End(c, k) {
      ShlMono(End(c, k), p, 15 - k);
    }
  }
}
