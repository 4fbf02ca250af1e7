/**
 * The numbers of RFC 1951 by their rules, without the tables of the decoder: what
 * length and distance symbols stand for, fixed code lengths, orders and repeats.
 */
module FormatNumbers {
  import opened Arith
  import opened FixedTrees
  import opened InflateSpec

  // ---- section 3.2.5: what length and distance symbols stand for ----

  /** How many extra bits follow length symbol i, counted from 257. */
  function LengthExtra(i: nat): (r: nat)
    ensures i < 29 ==> r == CPLEXT[i]
  {
    if i < 8 || i == 28 then 0 else i / 4 - 1
  }

  /** The least length that it stands for: the symbols share out the lengths from 3 on; the last is 258 itself. */
  function LengthBase(i: nat): (r: nat)
    ensures i < 29 ==> r == CPLENS[i]
    ensures r >= 3
  {
    if i == 0 then 3
    else if i == 28 then 258
    else
      LengthShared(i - 1);
      LengthBase(i - 1) + Pow2(LengthExtra(i - 1))
  }

  function DistExtra(z: nat): (r: nat)
    ensures z < 30 ==> r == CPDEXT[z]
  {
    if z < 4 then 0 else z / 2 - 1
  }

  /** The symbols share out the distances from 1 on. */
  function DistBase(z: nat): (r: nat)
    ensures z < 30 ==> r == CPDIST[z]
    ensures r >= 1
  {
    if z == 0 then 1
    else
      DistShared(z - 1);
      DistBase(z - 1) + Pow2(DistExtra(z - 1))
  }

  /** Each symbol begins where the one before ends. */
  lemma LengthShared(i: nat)
    ensures i < 27 ==> CPLENS[i + 1] == CPLENS[i] + Pow2(CPLEXT[i])
    ensures CPLENS[0] == 3 && CPLENS[27] + Pow2(CPLEXT[27]) == 259 && CPLENS[28] == 258
  {
    SmallPowers();
  }

  lemma DistShared(z: nat)
    ensures z < 29 ==> CPDIST[z + 1] == CPDIST[z] + Pow2(CPDEXT[z])
    ensures CPDIST[0] == 1 && CPDIST[29] + Pow2(CPDEXT[29]) == 32769
  {
    SmallPowers();
  }

  lemma SmallPowers()
    ensures Pow2(0) == 1 && Pow2(1) == 2 && Pow2(2) == 4 && Pow2(3) == 8 && Pow2(4) == 16 && Pow2(5) == 32
    ensures Pow2(6) == 64 && Pow2(7) == 128 && Pow2(8) == 256 && Pow2(9) == 512 && Pow2(10) == 1024
    ensures Pow2(11) == 2048 && Pow2(12) == 4096 && Pow2(13) == 8192
  {
  }

  /** Symbol i with extra bits x stands for this length. */
  predicate LengthIs(i: nat, x: nat, len: nat) { i < 29 && x < Pow2(LengthExtra(i)) && len == LengthBase(i) + x }

  predicate DistIs(z: nat, x: nat, dist: nat) { z < 30 && x < Pow2(DistExtra(z)) && dist == DistBase(z) + x }

  lemma {:induction false} LengthsRise(i: nat, j: nat)
    requires i < j < 28
    ensures LengthBase(i) + Pow2(LengthExtra(i)) <= LengthBase(j)
    decreases j
  {
    hide LengthExtra, Pow2;
    if i < j - 1 {
      LengthsRise(i, j - 1);
    }
  }

  lemma {:induction false} DistsRise(y: nat, z: nat)
    requires y < z < 30
    ensures DistBase(y) + Pow2(DistExtra(y)) <= DistBase(z)
    decreases z
  {
    hide DistExtra, Pow2;
    if y < z - 1 {
      DistsRise(y, z - 1);
    }
  }

  lemma {:induction false} LengthFound(len: nat, i: nat) returns (j: nat, x: nat)
    requires i < 28 && 3 <= len < LengthBase(i) + Pow2(LengthExtra(i))
    ensures LengthIs(j, x, len)
    decreases i
  {
    hide LengthExtra, Pow2, CPLENS, CPLEXT;
    if len < LengthBase(i) {
      j, x := LengthFound(len, i - 1);
    } else {
      j, x := i, len - LengthBase(i);
    }
  }

  lemma {:induction false} DistFound(dist: nat, y: nat) returns (z: nat, x: nat)
    requires y < 30 && 1 <= dist < DistBase(y) + Pow2(DistExtra(y))
    ensures DistIs(z, x, dist)
    decreases y
  {
    hide DistExtra, Pow2, CPDIST, CPDEXT;
    if dist < DistBase(y) {
      z, x := DistFound(dist, y - 1);
    } else {
      z, x := y, dist - DistBase(y);
    }
  }

  /** Every length from 3 to 258 has a symbol with extra bits, and no other has. */
  lemma EveryLength(len: nat)
    ensures 3 <= len <= 258 <==> exists i, x :: LengthIs(i, x, len)
  {
    hide LengthBase, LengthExtra, Pow2, LengthIs;
    LengthEnd();
    if 3 <= len <= 258 {
      var i, x := LengthFound(len, 27);
    }
    forall i, x | LengthIs(i, x, len)
      ensures 3 <= len <= 258
    {
      LengthBounds(i, x, len);
    }
  }

  lemma LengthEnd()
    ensures LengthBase(27) + Pow2(LengthExtra(27)) == 259 && LengthBase(28) == 258 && LengthExtra(28) == 0
  {
    hide LengthBase, LengthExtra;
    LengthShared(27);
    assert CPLENS[27] == 227 && CPLEXT[28] == 0;
  }

  lemma LengthBounds(i: nat, x: nat, len: nat)
    requires LengthIs(i, x, len)
    ensures 3 <= len <= 258
  {
    hide LengthBase, LengthExtra, Pow2;
    LengthEnd();
    Pow2Zero();
    if i < 27 {
      LengthsRise(i, 27);
    }
  }

  /** Only one: but 258 has its own symbol besides. */
  lemma OneLength(i: nat, x: nat, j: nat, y: nat, len: nat)
    requires LengthIs(i, x, len) && LengthIs(j, y, len) && i <= j
    ensures (i == j && x == y) || (len == 258 && i == 27 && x == 31 && j == 28 && y == 0)
  {
    hide LengthBase, LengthExtra, Pow2;
    LengthEnd();
    Pow2Zero();
    assert LengthExtra(27) == 5 && LengthBase(27) == 227;
    if i < j < 28 {
      LengthsRise(i, j);
    } else if i < 27 && j == 28 {
      LengthsRise(i, 27);
    }
  }

  /** Every distance from 1 to 32768 has one symbol with extra bits, and no other has. */
  lemma EveryDistance(dist: nat)
    ensures 1 <= dist <= 32768 <==> exists z, x :: DistIs(z, x, dist)
    ensures forall z, x, z', x' :: DistIs(z, x, dist) && DistIs(z', x', dist) ==> z == z' && x == x'
  {
    hide DistBase, DistExtra, Pow2, DistIs;
    DistEnd();
    if 1 <= dist <= 32768 {
      var z, x := DistFound(dist, 29);
    }
    forall z, x | DistIs(z, x, dist)
      ensures 1 <= dist <= 32768
    {
      DistanceBounds(z, x, dist);
    }
    forall z, x, z', x' | DistIs(z, x, dist) && DistIs(z', x', dist)
      ensures z == z' && x == x'
    {
      if z <= z' {
        OneDistance(z, x, z', x', dist);
      } else {
        OneDistance(z', x', z, x, dist);
      }
    }
  }

  lemma DistEnd()
    ensures DistBase(29) + Pow2(DistExtra(29)) == 32769
  {
    hide DistBase, DistExtra;
    DistShared(29);
    assert CPDIST[29] == 24577;
  }

  lemma DistanceBounds(z: nat, x: nat, dist: nat)
    requires DistIs(z, x, dist)
    ensures 1 <= dist <= 32768
  {
    hide DistBase, DistExtra, Pow2;
    DistEnd();
    if z < 29 {
      DistsRise(z, 29);
    }
  }

  lemma OneDistance(y: nat, x: nat, z: nat, x': nat, dist: nat)
    requires DistIs(y, x, dist) && DistIs(z, x', dist) && y <= z
    ensures y == z && x == x'
  {
    hide DistBase, DistExtra, Pow2;
    if y < z {
      DistsRise(y, z);
    }
  }

  // ---- sections 3.2.6 and 3.2.7: code lengths that are fixed, and numbers ----

  /** The code length of a literal/length symbol in a block of fixed codes. */
  function FixedLength(y: nat): nat { if y < 144 then 8 else if y < 256 then 9 else if y < 280 then 7 else 8 }

  function FixedLengths(): (ll: seq<nat>)
    ensures ll == FixedLit()
  {
    FixedLitIs();
    seq(288, y requires 0 <= y < 288 => FixedLength(y))
  }

  /** Distance symbols 30 and 31 stand for nothing. */
  function FixedDistances(): (dl: seq<nat>)
    ensures dl == FixedDist()
  {
    ConstAt(30, 5);
    seq(30, z requires 0 <= z < 30 => 5)
  }

  lemma FixedLitIs()
    ensures |FixedLit()| == 288 && forall y | 0 <= y < 288 :: FixedLit()[y] == FixedLength(y)
  {
    hide Const;
    ConstAt(144, 8);
    ConstAt(112, 9);
    ConstAt(24, 7);
    ConstAt(8, 8);
  }

  /** Where in the header the length of symbol k of the code-length code is sent: 16, 17, 18, 0, 8, 7, 9, 6, 10, ... */
  function SentPlace(k: nat): (r: nat)
    ensures k < 19 ==> r == SENT_AT[k]
  {
    if k >= 16 then k - 16 else if k == 0 then 3 else if k < 8 then 19 - 2 * k else 2 * k - 12
  }

  /** Symbol 16 repeats the length before 3 to 6 times, 17 and 18 repeat zero 3 to 10 and 11 to 138 times. */
  function TimesBase(y: nat): (r: nat)
    ensures r == RepeatBase(y)
  {
    if y <= 17 then 3 else if y == 18 then 11 else 3
  }

  function TimesBits(y: nat): (r: nat)
    ensures r == RepeatBits(y)
  {
    if y <= 16 then 2 else if y == 17 then 3 else if y == 18 then 7 else 2
  }
}
