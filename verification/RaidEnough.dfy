/** enough of mdadm's util.c: whether the devices present can run an array. */
module RaidEnough {

  /** Is a device present in the slot that comes up at the n-th step around the array? */
  predicate Alive(avail: seq<bool>, disks: nat, n: nat)
    requires 0 < disks <= |avail|
  {
    avail[n % disks]
  }

  /** One of the copies in the block of steps from n on is there. */
  predicate BlockAlive(avail: seq<bool>, disks: nat, n: nat, copies: nat)
    requires 0 < disks <= |avail|
  {
    exists k: nat | n <= k < n + copies :: Alive(avail, disks, k)
  }

  lemma Multiples(a: int, n: int)
    requires n > 0
    ensures a >= 1 ==> a * n >= n
    ensures a <= -1 ==> a * n <= -n
  {
  }

  lemma ModUnique(x: int, q: int, r: int, n: int)
    requires n > 0 && x == q * n + r && 0 <= r < n
    ensures x % n == r
  {
    var p, s := x / n, x % n;
    assert x == p * n + s;
    assert (p - q) * n == r - s;
    Multiples(p - q, n);
  }

  /** One slot further, around the array. */
  lemma StepRound(x: nat, disks: nat)
    requires disks > 0
    ensures (x % disks + 1) % disks == (x + 1) % disks
  {
    var q, r := x / disks, x % disks;
    assert x == q * disks + r;
    if r + 1 < disks {
      ModUnique(x + 1, q, r + 1, disks);
      ModUnique(r + 1, 0, r + 1, disks);
    } else {
      assert x + 1 == (q + 1) * disks + 0;
      ModUnique(x + 1, q + 1, 0, disks);
      ModUnique(disks, 1, 0, disks);
    }
  }

  /** A common divisor shortens the way around: this many rounds come back to slot 0. */
  lemma BackAtZero(disks: nat, copies: nat, g: nat, m: nat, k: nat)
    requires disks > 0 && disks == g * m && copies == g * k
    ensures (m * copies) % disks == 0
  {
    assert m * copies == k * disks + 0 by {
      assert m * (g * k) == k * (g * m);
    }
    ModUnique(m * copies, k, 0, disks);
  }

  lemma WholeRound(disks: nat, copies: nat)
    requires disks > 0
    ensures (disks * copies) % disks == 0
  {
    BackAtZero(disks, copies, 1, disks, copies);
  }

  /** After the blocks of `rounds` rounds the walk is not back at slot 0 before. */
  predicate FirstReturn(disks: nat, copies: nat, rounds: nat)
    requires disks > 0
  {
    forall j: nat | 0 < j < rounds :: !Returned(disks, copies, j)
  }

  predicate Returned(disks: nat, copies: nat, j: nat)
    requires disks > 0
  {
    (j * copies) % disks == 0
  }

  /** Every block visited in the first `rounds` rounds has a copy. */
  predicate AllAlive(avail: seq<bool>, disks: nat, copies: nat, rounds: nat)
    requires 0 < disks <= |avail|
  {
    forall j: nat | j < rounds :: RoundAlive(avail, disks, copies, j)
  }

  predicate RoundAlive(avail: seq<bool>, disks: nat, copies: nat, j: nat)
    requires 0 < disks <= |avail|
  {
    BlockAlive(avail, disks, j * copies, copies)
  }

  /** The inner loop: counts the devices present in one block and moves on to the next. */
  method CountBlock(avail: seq<bool>, disks: nat, copies: nat, first: nat, ghost at: nat)
    returns (cnt: nat, first': nat)
    requires 0 < disks <= |avail| && first == at % disks
    ensures cnt > 0 <==> BlockAlive(avail, disks, at, copies)
    ensures first' == (at + copies) % disks
  {
    hide BlockAlive, Alive;
    cnt, first' := 0, first;
    var n := copies;
    BlockNone(avail, disks, at);
    while n > 0
      invariant 0 <= n <= copies && first' == (at + (copies - n)) % disks
      invariant cnt > 0 <==> BlockAlive(avail, disks, at, copies - n)
    {
      ghost var k: nat := at + (copies - n);
      StepRound(k, disks);
      BlockMore(avail, disks, at, copies - n);
      AliveIs(avail, disks, k);
      if avail[first'] {
        cnt := cnt + 1;
      }
      first' := (first' + 1) % disks;
      n := n - 1;
    }
  }

  lemma AliveIs(avail: seq<bool>, disks: nat, n: nat)
    requires 0 < disks <= |avail|
    ensures n % disks < |avail| && (Alive(avail, disks, n) <==> avail[n % disks])
  {
  }

  lemma BlockNone(avail: seq<bool>, disks: nat, n: nat)
    requires 0 < disks <= |avail|
    ensures !BlockAlive(avail, disks, n, 0)
  {
  }

  lemma BlockMore(avail: seq<bool>, disks: nat, n: nat, m: nat)
    requires 0 < disks <= |avail|
    ensures BlockAlive(avail, disks, n, m + 1) <==> BlockAlive(avail, disks, n, m) || Alive(avail, disks, n + m)
  {
    if BlockAlive(avail, disks, n, m + 1) && !Alive(avail, disks, n + m) {
      var k: nat :| n <= k < n + m + 1 && Alive(avail, disks, k);
      assert k < n + m;
    }
  }

  /**
   * The loop for RAID10. It goes around until it is back at slot 0, which takes at most disks / g rounds
   * for any common divisor g, and finds the array usable exactly when every block visited has a copy.
   */
  method EnoughTen(disks: nat, copies: nat, avail: seq<bool>) returns (ok: bool, ghost rounds: nat)
    requires 0 < disks <= |avail|
    ensures copies == 0 ==> !ok
    ensures ok ==> rounds > 0 && Returned(disks, copies, rounds) && FirstReturn(disks, copies, rounds)
    ensures ok ==> AllAlive(avail, disks, copies, rounds)
    ensures !ok ==> FirstReturn(disks, copies, rounds + 1) && !RoundAlive(avail, disks, copies, rounds)
    ensures rounds <= disks
  {
    hide Alive, BlockAlive;
    var first := 0;
    rounds := 0;
    var more := true;
    ModUnique(0, 0, 0, disks);
    while more
      invariant first == (rounds * copies) % disks && rounds <= disks
      invariant FirstReturn(disks, copies, rounds) && AllAlive(avail, disks, copies, rounds)
      invariant more ==> (rounds > 0 ==> !Returned(disks, copies, rounds))
      invariant !more ==> rounds > 0 && Returned(disks, copies, rounds) && copies > 0
      decreases disks - rounds, more
    {
      WholeRound(disks, copies);
      var cnt;
      cnt, first := CountBlock(avail, disks, copies, first, rounds * copies);
      if cnt == 0 {
        return false, rounds;
      }
      NoCopies(avail, disks, rounds * copies, copies);
      NextRound(rounds, copies);
      rounds := rounds + 1;
      more := first != 0;
    }
    ok := true;
  }

  lemma NoCopies(avail: seq<bool>, disks: nat, n: nat, copies: nat)
    requires 0 < disks <= |avail| && BlockAlive(avail, disks, n, copies)
    ensures copies > 0
  {
  }

  lemma NextRound(rounds: nat, copies: nat)
    ensures rounds * copies + copies == (rounds + 1) * copies
  {
  }

  /** The rounds are no more than the array's size over any divisor that it shares with the copies. */
  lemma RoundsBound(disks: nat, copies: nat, rounds: nat, g: nat, m: nat, k: nat)
    requires disks > 0 && disks == g * m && copies == g * k && FirstReturn(disks, copies, rounds)
    ensures rounds <= m
  {
    BackAtZero(disks, copies, g, m, k);
    assert m > 0;
    if rounds > m {
      assert Returned(disks, copies, m);
    }
  }

  lemma ModShift(x: nat, m: nat, n: nat)
    requires n > 0 && m % n == 0
    ensures (x + m) % n == x % n
  {
    assert x + m == (x / n + m / n) * n + x % n by {
      assert (x / n + m / n) * n == x / n * n + m / n * n;
    }
    ModUnique(x + m, x / n + m / n, x % n, n);
  }

  /** Once back at slot 0 the same blocks come up again. */
  lemma RoundShift(avail: seq<bool>, disks: nat, copies: nat, rounds: nat, j: nat)
    requires 0 < disks <= |avail| && Returned(disks, copies, rounds) && RoundAlive(avail, disks, copies, j)
    ensures RoundAlive(avail, disks, copies, j + rounds)
  {
    var k: nat :| j * copies <= k < j * copies + copies && Alive(avail, disks, k);
    assert (j + rounds) * copies == j * copies + rounds * copies;
    ModShift(k, rounds * copies, disks);
    assert Alive(avail, disks, k + rounds * copies);
  }

  /** So a walk that returns with every block alive says that no block ever visited is dead. */
  lemma {:induction false} AllRounds(avail: seq<bool>, disks: nat, copies: nat, rounds: nat, j: nat)
    requires 0 < disks <= |avail| && rounds > 0 && Returned(disks, copies, rounds)
    requires AllAlive(avail, disks, copies, rounds)
    ensures RoundAlive(avail, disks, copies, j)
    decreases j
  {
    hide RoundAlive, Returned;
    if j >= rounds {
      AllRounds(avail, disks, copies, rounds, j - rounds);
      RoundShift(avail, disks, copies, rounds, j - rounds);
    }
  }

  /** Every block of copies, however far one walks around the array, has a device. */
  ghost predicate Covered(avail: seq<bool>, disks: nat, copies: nat)
    requires 0 < disks <= |avail|
  {
    copies > 0 && forall j: nat :: RoundAlive(avail, disks, copies, j)
  }

  /** enough: level 10 looks at which devices hold the near times far copies, the others only at how many there are. */
  method Enough(level: int, raidDisks: nat, layout: nat, avail: seq<bool>, availDisks: int) returns (r: bool)
    requires 0 < raidDisks <= |avail|
    ensures forall near: nat, far: nat | level == 10 && near < 256 && layout == near + 256 * far ::
        r <==> Covered(avail, raidDisks, near * far)
    ensures level in {-4, 1} ==> (r <==> availDisks >= 1)
    ensures level in {-1, 0} ==> (r <==> availDisks == raidDisks)
    ensures level in {4, 5} ==> (r <==> availDisks >= raidDisks - 1)
    ensures level == 6 ==> (r <==> availDisks >= raidDisks - 2)
    ensures level !in {10, -4, -1, 0, 1, 4, 5, 6} ==> !r
  {
    hide RoundAlive, Returned, FirstReturn;
    if level == 10 {
      var copies := (layout % 256) * (layout / 256);
      ghost var rounds;
      r, rounds := EnoughTen(raidDisks, copies, avail);
      if r {
        forall j: nat
          ensures RoundAlive(avail, raidDisks, copies, j)
        {
          AllRounds(avail, raidDisks, copies, rounds, j);
        }
        SomeCopies(avail, raidDisks, copies);
      }
    } else if level == -4 {
      r := availDisks >= 1;
    } else if level == -1 || level == 0 {
      r := availDisks == raidDisks;
    } else if level == 1 {
      r := availDisks >= 1;
    } else if level == 4 || level == 5 {
      r := availDisks >= raidDisks - 1;
    } else if level == 6 {
      r := availDisks >= raidDisks - 2;
    } else {
      r := false;
    }
  }

  lemma SomeCopies(avail: seq<bool>, disks: nat, copies: nat)
    requires 0 < disks <= |avail| && RoundAlive(avail, disks, copies, 0)
    ensures copies > 0
  {
    NoCopies(avail, disks, 0, copies);
  }
}
