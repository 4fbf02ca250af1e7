/** The loops inside the table builder that work on one code: filling, counting backwards. */
module HuftSteps {
  import opened Arith
  import opened CanonicalCode
  import opened HuftSpec
  import opened HuftInvariant

  lemma LowStep(j: nat, m: nat)
    ensures Low(j + Pow2(m), m) == Low(j, m)
  {
    SplitAt(j, m);
    ShlAdd(Shr(j, m), 1, m);
    ShlPow2(0, m);
    SplitUnique(j + Pow2(m), m, Low(j, m), Shr(j, m) + 1);
  }

  lemma LowNext(j: nat, idx: nat, m: nat)
    requires Low(idx, m) == Low(j, m) && j < idx
    ensures idx >= j + Pow2(m)
  {
    hide Low, Shr, Shl;
    SplitAt(j, m);
    SplitAt(idx, m);
    if Shr(idx, m) < Shr(j, m) {
      ShlGap(Shr(idx, m), Shr(j, m), m);
    } else if Shr(j, m) < Shr(idx, m) {
      ShlGap(Shr(j, m), Shr(idx, m), m);
    }
  }

  /** No entry is written twice. */
  predicate NoneTwice(log: seq<nat>) { forall i, k | 0 <= i < k < |log| :: log[i] != log[k] }

  /** The log of the entries written, and those of the stride through the table at q that lie below slot n. */
  ghost predicate LoggedTo(log0: seq<nat>, log: seq<nat>, q: nat, m: nat, f: nat, n: nat) {
    NoneTwice(log) && forall a: nat :: a in log <==> a in log0 || (q <= a < q + n && Low(a - q, m) == f)
  }

  /** No slot of the stride is in the log. */
  ghost predicate Unwritten(log: seq<nat>, q: nat, z: nat, m: nat, f: nat) {
    forall a | a in log && q <= a < q + z :: Low(a - q, m) != f
  }

  /**
   * Every 2^m-th slot of the table at q, from slot f on, becomes e;
   * the log says in which order, and none of them was written before.
   */
  method FillEntries(hp: array<Huft>, q: nat, z: nat, f: nat, m: nat, e: Huft, ghost j: nat, ghost log0: seq<nat>)
    returns (ghost log: seq<nat>)
    requires m <= j && z == Pow2(j) && f < Pow2(m) && q + z <= hp.Length
    requires NoneTwice(log0) && Unwritten(log0, q, z, m, f)
    modifies hp
    ensures Filled(old(hp[..]), hp[..], q, j, m, f, e) && LoggedTo(log0, log, q, m, f, z)
  {
    hide Low, Pow2, Shr, Shl, LoggedTo, NoneTwice, Unwritten;
    var step := Pow2(m);
    var n := f;
    LowSmall(f, m);
    LowFirst(f, m);
    ghost var before := hp[..];
    assert FilledTo(before, hp[..], q, z, m, f, n, e);
    log := log0;
    LogStart(log0, q, m, f);
    Pow2Mono(m, j);
    while n < z
      invariant Low(n, m) == f
      invariant FilledTo(before, hp[..], q, z, m, f, n, e)
      invariant LoggedTo(log0, log, q, m, f, if n < z then n else z)
    {
      ghost var was := hp[..];
      LogStep(log0, log, q, z, m, f, n);
      hp[q + n] := e;
      log := log + [q + n];
      assert hp[..] == was[q + n := e];
      FillStep(before, was, q, z, m, f, n, e);
      LowStep(n, m);
      Pow2Pos(m);
      n := n + step;
    }
  }

  lemma LogStart(log0: seq<nat>, q: nat, m: nat, f: nat)
    requires NoneTwice(log0) && f < Pow2(m)
    ensures LoggedTo(log0, log0, q, m, f, f)
  {
    hide Low, Pow2, NoneTwice;
    LowFirst(f, m);
  }

  lemma LogStep(log0: seq<nat>, log: seq<nat>, q: nat, z: nat, m: nat, f: nat, n: nat)
    requires LoggedTo(log0, log, q, m, f, n) && n < z && Low(n, m) == f && Unwritten(log0, q, z, m, f)
    ensures LoggedTo(log0, log + [q + n], q, m, f, if n + Pow2(m) < z then n + Pow2(m) else z)
  {
    hide Low, Pow2, NoneTwice, LoggedTo;
    Pow2Pos(m);
    var n' := if n + Pow2(m) < z then n + Pow2(m) else z;
    assert q + n !in log0;
    LoggedAt(log0, log, q, m, f, n, q + n);
    LoggedOnce(log0, log, q, m, f, n);
    OnceMore(log, q + n);
    forall a: nat
      ensures a in log + [q + n] <==> a in log0 || (q <= a < q + n' && Low(a - q, m) == f)
    {
      LoggedAt(log0, log, q, m, f, n, a);
      StrideMore(n, n', m, f, q, a);
    }
    LoggedAll(log0, log + [q + n], q, m, f, n');
  }

  lemma LoggedOnce(log: seq<nat>, log': seq<nat>, q: nat, m: nat, f: nat, n: nat)
    requires LoggedTo(log, log', q, m, f, n)
    ensures NoneTwice(log')
  {
    hide Low, NoneTwice;
  }

  lemma LoggedAll(log: seq<nat>, log': seq<nat>, q: nat, m: nat, f: nat, n: nat)
    requires NoneTwice(log') && forall a: nat :: a in log' <==> a in log || (q <= a < q + n && Low(a - q, m) == f)
    ensures LoggedTo(log, log', q, m, f, n)
  {
    hide Low, NoneTwice;
  }

  lemma LoggedAt(log: seq<nat>, log': seq<nat>, q: nat, m: nat, f: nat, n: nat, a: nat)
    requires LoggedTo(log, log', q, m, f, n)
    ensures a in log' <==> a in log || (q <= a < q + n && Low(a - q, m) == f)
  {
    hide Low, NoneTwice;
  }

  lemma OnceMore(log: seq<nat>, a: nat)
    requires NoneTwice(log) && a !in log
    ensures NoneTwice(log + [a])
  {
  }

  lemma StrideMore(n: nat, n': nat, m: nat, f: nat, q: nat, a: nat)
    requires n < n' <= n + Pow2(m) && Low(n, m) == f
    ensures (q <= a < q + n' && Low(a - q, m) == f) <==> (a == q + n || (q <= a < q + n && Low(a - q, m) == f))
  {
    hide Low, Pow2;
    if q + n < a < q + n' && Low(a - q, m) == f {
      LowNext(n, a - q, m);
    }
  }

  /** The slots of the stride below n are written. */
  ghost predicate FilledTo(hp: seq<Huft>, hp': seq<Huft>, q: nat, z: nat, m: nat, f: nat, n: nat, e: Huft) {
    && q + z <= |hp| == |hp'|
    && (forall idx: nat | idx < z :: hp'[q + idx] == if idx < n && Low(idx, m) == f then e else hp[q + idx])
    && (forall a | 0 <= a < |hp| && !(q <= a < q + z) :: hp'[a] == hp[a])
  }

  lemma FillStep(hp: seq<Huft>, was: seq<Huft>, q: nat, z: nat, m: nat, f: nat, n: nat, e: Huft)
    requires FilledTo(hp, was, q, z, m, f, n, e) && n < z && Low(n, m) == f
    ensures FilledTo(hp, was[q + n := e], q, z, m, f, n + Pow2(m), e)
  {
    hide Low, Pow2;
    Pow2Pos(m);
    forall idx: nat | idx < z
      ensures was[q + n := e][q + idx] == if idx < n + Pow2(m) && Low(idx, m) == f then e else hp[q + idx]
    {
      if n < idx && Low(idx, m) == f {
        LowNext(n, idx, m);
      }
    }
  }

  lemma LowFirst(f: nat, m: nat)
    requires f < Pow2(m)
    ensures forall idx: nat | idx < f :: Low(idx, m) != f
  {
    hide Low, Pow2;
    forall idx: nat | idx < f
      ensures Low(idx, m) != f
    {
      LowSmall(idx, m);
    }
  }

  predicate Bit(i: nat, b: nat) { Shr(i, b) % 2 == 1 }

  lemma TopBit(i: nat, b: nat)
    requires i < Pow2(b + 1)
    ensures Bit(i, b) <==> i >= Pow2(b)
    ensures i >= Pow2(b) ==> i - Pow2(b) < Pow2(b)
  {
    SplitAt(i, b);
    ShrBound(i, b, 1);
    ShlPow2(0, b);
    ShlZero(b);
  }

  lemma RevBitAdd(i: nat, b: nat)
    requires b < 15 && i < Pow2(b)
    ensures Rev(i + Pow2(b), 15) == Rev(i, 15) + Pow2(14 - b)
  {
    hide Shl, Shr, Low, Rev, Pow2;
    ShlPow2(0, b);
    Pow2Zero();
    SplitUnique(i + Pow2(b), b, i, 1);
    RevSplit(i + Pow2(b), b, 15 - b);
    RevLow(i + Pow2(b), b);
    RevPad(i, b, 15 - b);
    RevOne(15 - b);
  }

  lemma RevOne(n: nat)
    requires n > 0
    ensures Rev(1, n) == Pow2(n - 1)
  {
    RevOfZero(n - 1);
  }

  /**
   * Adds one to the k-bit code whose first bit is bit 0 of i: trailing ones,
   * from bit k - 1 down, become zeros and the next zero becomes a one.
   */
  method BackIncrement(i0: nat, k: nat) returns (i: nat)
    requires 1 <= k <= 15 && i0 < Pow2(k) && Rev(i0, 15) + Pow2(15 - k) <= Pow2(15)
    ensures i < Pow2(15)
    ensures Rev(i0, 15) + Pow2(15 - k) < Pow2(15) ==> Rev(i, 15) == Rev(i0, 15) + Pow2(15 - k)
    ensures Rev(i0, 15) + Pow2(15 - k) == Pow2(15) ==> i == 0
  {
    hide Rev, Shr, Shl, Bit, Pow2;
    i := i0;
    var b: int := k - 1;
    while b >= 0 && Bit(i, b)
      invariant -1 <= b < 15
      invariant i < Pow2(b + 1)
      invariant Rev(i, 15) + Pow2(14 - b) == Rev(i0, 15) + Pow2(15 - k)
    {
      TopBit(i, b);
      RevBitAdd(i - Pow2(b), b);
      DoublePow2(14 - b);
      i := i - Pow2(b);
      b := b - 1;
    }
    if b >= 0 {
      TopBit(i, b);
      RevBitAdd(i, b);
      i := i + Pow2(b);
      Settle(i, b);
    } else {
      RevOfZero(15);
      Settle(0, 0);
    }
  }

  lemma DoublePow2(n: nat)
    ensures Pow2(n) + Pow2(n) == Pow2(n + 1)
  {
  }

  lemma Settle(i: nat, b: nat)
    requires b < 15 && i < Pow2(b) + Pow2(b)
    ensures i < Pow2(15) && Rev(i, 15) < Pow2(15)
    ensures Pow2(0) == 1
  {
    hide Rev;
    DoublePow2(b);
    Pow2Mono(b + 1, 15);
    RevLess(i, 15);
  }
}
