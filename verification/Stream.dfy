/** The compressed input as one long number, first byte lowest, so that reading bits is shifting and masking. */
module Stream {
  import opened Arith

  type byte = x: nat | x < 256

  /** The input as a number. */
  ghost function Value(input: seq<byte>): nat {
    if input == [] then 0 else input[0] + 256 * Value(input[1..])
  }

  /** The n bits at bit position p, first bit lowest; bits past the end are zero. */
  ghost function Peek(input: seq<byte>, p: nat, n: nat): (r: nat)
    ensures r < Pow2(n)
  {
    Low(Shr(Value(input), p), n)
  }

  lemma {:induction false} PeekSplit(input: seq<byte>, p: nat, m: nat, n: nat)
    ensures Peek(input, p, m + n) == Peek(input, p, m) + Shl(Peek(input, p + m, n), m)
  {
    LowSplit(Shr(Value(input), p), m, n);
    ShrShr(Value(input), p, m);
  }

  /** Dropping bits from a stretch of the stream. */
  lemma PeekDrop(input: seq<byte>, p: nat, m: nat, n: nat)
    ensures Shr(Peek(input, p, m + n), m) == Peek(input, p + m, n)
    ensures Low(Peek(input, p, m + n), m) == Peek(input, p, m)
  {
    hide Low, Shr, Shl;
    PeekSplit(input, p, m, n);
    SplitUnique(Peek(input, p, m + n), m, Peek(input, p, m), Peek(input, p + m, n));
  }

  lemma EightBits()
    ensures Pow2(8) == 256
  {
  }

  lemma ShlByte(y: nat)
    ensures Shl(y, 8) == 256 * y
  {
    assert Shl(y, 8) == 2 * Shl(y, 7);
    assert Shl(y, 7) == 2 * Shl(y, 6);
    assert Shl(y, 6) == 2 * Shl(y, 5);
    assert Shl(y, 5) == 2 * Shl(y, 4);
    assert Shl(y, 4) == 2 * Shl(y, 3);
    assert Shl(y, 3) == 2 * Shl(y, 2);
    assert Shl(y, 2) == 2 * Shl(y, 1);
    assert Shl(y, 1) == 2 * Shl(y, 0);
  }

  /** At a byte boundary, eight bits are the byte there. */
  lemma {:induction false} PeekByte(input: seq<byte>, i: nat)
    requires i < |input|
    ensures Peek(input, 8 * i, 8) == input[i]
  {
    hide Low, Shr, Shl;
    var v := Value(input[1..]);
    ShlByte(v);
    SplitUnique(Value(input), 8, input[0], v) by {
      assert Pow2(8) == 256;
    }
    if i == 0 {
      ShrNone(Value(input));
    } else {
      PeekByte(input[1..], i - 1);
      ShrShr(Value(input), 8, 8 * (i - 1));
    }
  }

  /** The first bit of the next byte from bit p on. */
  function AlignUp(p: nat): nat {
    if p % 8 == 0 then p else p + 8 - p % 8
  }

  /** Bitwise or. */
  function Or(x: nat, y: nat): nat
    decreases x + y
  {
    if x == 0 then y else if y == 0 then x
    else (if x % 2 == 1 || y % 2 == 1 then 1 else 0) + 2 * Or(x / 2, y / 2)
  }

  /** Or-ing a value in above all bits of x adds it. */
  lemma {:induction false} OrAbove(x: nat, y: nat, k: nat)
    requires x < Pow2(k)
    ensures Or(x, Shl(y, k)) == x + Shl(y, k)
    decreases k
  {
    if k > 0 && x > 0 && y > 0 {
      OrAbove(x / 2, y, k - 1);
      assert Shl(y, k) == 2 * Shl(y, k - 1);
    } else if k == 0 {
      assert x == 0;
    } else if y == 0 {
      ShlZero(k);
    }
  }

  /** Or-ing in bits that x has already changes nothing. */
  lemma {:induction false} OrSame(x: nat, y: nat, k: nat, n: nat)
    requires y == Low(Shr(x, k), n)
    ensures Or(x, Shl(y, k)) == x
    decreases k
  {
    if k > 0 {
      OrSame(x / 2, y, k - 1, n);
      assert Shl(y, k) == 2 * Shl(y, k - 1);
      if x == 0 {
        LowSmall(0, n);
        ShlZero(k);
      }
    } else {
      OrLow(x, n);
    }
  }

  lemma {:induction false} OrLow(x: nat, n: nat)
    ensures Or(x, Low(x, n)) == x
    decreases n
  {
    if n > 0 && x > 0 {
      OrLow(x / 2, n - 1);
      var y := Low(x, n);
      assert y / 2 == Low(x / 2, n - 1) && y % 2 == x % 2;
    }
  }
}
