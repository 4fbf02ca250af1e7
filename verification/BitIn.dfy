/** The input side of inflate: the bit buffer macros of infutil.h and inffast.c. */
module BitInput {
  import opened Arith
  import opened Stream
  import opened InflateTrees

  /** b holds the k bits from bp on and, above them, the next `ahead` bytes or nothing but zeros. */
  ghost predicate Holds(input: seq<byte>, b: nat, k: nat, ahead: nat, bp: nat) {
    b == Peek(input, bp, k + 8 * ahead)
  }

  class BitIn {
    const input: seq<byte>   // the whole compressed stream
    var bitb: nat            // bit buffer
    var bitk: nat            // bits in bit buffer
    var pos: nat             // bytes of the stream taken so far
    var limit: nat           // bytes of the stream supplied so far
    ghost var bp: nat        // bits of the stream consumed so far
    ghost var ahead: nat     // bytes given back that the buffer still holds above its bitk bits

    constructor (stream: seq<byte>)
      ensures Valid() && input == stream && bp == 0 && bitk == 0 && limit == 0
    {
      input := stream;
      bitb, bitk, pos, limit, bp, ahead := 0, 0, 0, 0, 0, 0;
    }

    ghost predicate Valid()
      reads this
    {
      && pos + ahead <= limit <= |input| && bitk + 8 * ahead <= 32
      && bp + bitk == 8 * pos
      && Holds(input, bitb, bitk, ahead, bp)
    }

    lemma Bounds()
      requires Valid()
      ensures pos <= limit <= |input| && bitk + 8 * ahead <= 32 && bp + bitk == 8 * pos
    {
    }

    /** The caller supplies more input. */
    method Supply(n: nat)
      requires Valid() && limit + n <= |input|
      modifies this`limit
      ensures Valid() && limit == old(limit) + n
    {
      limit := limit + n;
    }

    /** NEXTBYTE or-ed into the bit buffer; a byte given back before is or-ed in again. */
    method NextByte()
      requires Valid() && pos < limit && bitk <= 24
      modifies this`bitb, this`bitk, this`pos, this`ahead
      ensures Valid() && bp == old(bp) && bitk == old(bitk) + 8 && pos == old(pos) + 1
    {
      LoadByte(input, bitb, bitk, ahead, bp, pos);
      bitb := Or(bitb, Low(Shl(input[pos], bitk), 32));
      bitk := bitk + 8;
      pos := pos + 1;
      ahead := if ahead > 0 then ahead - 1 else 0;
    }

    /** NEEDBITS: loads bytes until j bits are there; fails when the supplied input does not have them. */
    method NeedBits(j: nat, r: Ret) returns (ok: bool, r': Ret)
      requires Valid() && (j <= 25 || (j == 32 && bitk % 8 == 0))
      modifies this`bitb, this`bitk, this`pos, this`ahead
      ensures Valid() && bp == old(bp)
      ensures ok <==> bp + j <= 8 * limit
      ensures (ok ==> bitk >= j) && bitk % 8 == old(bitk) % 8
      ensures if ok then bitk < j + 8 || bitk == old(bitk) else bitk < j
      ensures r' == (if pos == old(pos) then r else Z_OK)
      ensures !ok ==> pos == limit
      ensures old(pos) <= pos
    {
      hide *;
      r' := r;
      Bounds();
      while bitk < j
        invariant Valid() && bp == old(bp) && bitk % 8 == old(bitk) % 8
        invariant bitk < j + 8 || bitk == old(bitk)
        invariant bp + bitk == 8 * pos && pos <= limit
        invariant r' == (if pos == old(pos) then r else Z_OK)
        invariant old(pos) <= pos
        decreases limit - pos
      {
        if pos == limit {
          return false, r';
        }
        NextByte();
        Bounds();
        r' := Z_OK;
      }
      ok := true;
    }

    /** The low j bits of the buffer: (uInt)b & inflate_mask[j]. */
    method Bits(j: nat) returns (x: nat)
      requires Valid() && j <= bitk
      ensures x == Peek(input, bp, j)
    {
      PeekDrop(input, bp, j, bitk + 8 * ahead - j);
      x := Low(bitb, j);
    }

    /** The j bits of the buffer above the low i: (b >> i) & inflate_mask[j]. */
    method BitsAbove(i: nat, j: nat) returns (x: nat)
      requires Valid() && i + j <= bitk
      ensures x == Peek(input, bp + i, j)
    {
      PeekDrop(input, bp, i, bitk + 8 * ahead - i);
      PeekDrop(input, bp + i, j, bitk + 8 * ahead - i - j);
      x := Low(Shr(bitb, i), j);
    }

    /** GRABBITS: loads bytes until j bits are there, without looking at how much input is left. */
    method GrabBits(j: nat)
      requires Valid() && j <= 25 && bp + j <= 8 * limit
      modifies this`bitb, this`bitk, this`pos, this`ahead
      ensures Valid() && bp == old(bp) && bitk >= j && pos >= old(pos)
    {
      hide *;
      Bounds();
      while bitk < j
        invariant Valid() && bp == old(bp) && pos >= old(pos) && bp + bitk == 8 * pos && pos <= limit
        decreases limit - pos
      {
        NextByte();
        Bounds();
      }
    }

    /** UNGRAB: gives back whole bytes of the buffer, but no more than have been taken since. */
    method Ungrab(taken: nat)
      requires Valid()
      modifies this`bitk, this`pos, this`ahead
      ensures Valid() && bp == old(bp)
      ensures bitk < 8 || pos + taken == old(pos)
    {
      var c := if bitk / 8 < taken then bitk / 8 else taken;
      GiveBack(c);
    }

    /** DUMPBITS. */
    method DumpBits(j: nat)
      requires Valid() && j <= bitk
      modifies this`bitb, this`bitk, this`bp
      ensures Valid() && bp == old(bp) + j && bitk == old(bitk) - j
    {
      PeekDrop(input, bp, j, bitk + 8 * ahead - j);
      bitb := Shr(bitb, j);
      bitk := bitk - j;
      bp := bp + j;
    }

    /** NEEDBITS, the bits, DUMPBITS. */
    method TakeBits(j: nat, r: Ret) returns (ok: bool, x: nat, r': Ret)
      requires Valid() && j <= 25
      modifies this`bitb, this`bitk, this`pos, this`ahead, this`bp
      ensures Valid() && bp == old(bp) + (if ok then j else 0)
      ensures ok <==> old(bp) + j <= 8 * limit
      ensures ok ==> x == Peek(input, old(bp), j)
      ensures if ok then bitk < 8 || bitk + j == old(bitk) else bitk < j
      ensures r' == r || r' == Z_OK
    {
      x := 0;
      ok, r' := NeedBits(j, r);
      if ok {
        x := Bits(j);
        DumpBits(j);
      }
    }

    /** DUMPBITS(t), then i bits and DUMPBITS(i). */
    method TakeAfter(t: nat, i: nat) returns (x: nat)
      requires Valid() && t + i <= bitk
      modifies this`bitb, this`bitk, this`bp
      ensures Valid() && bp == old(bp) + t + i && bitk == old(bitk) - t - i && x == Peek(input, old(bp) + t, i)
    {
      DumpBits(t);
      x := Bits(i);
      DumpBits(i);
    }

    /** Drops the bits up to the next byte boundary. */
    method DumpToByte()
      requires Valid()
      modifies this`bitb, this`bitk, this`bp
      ensures Valid() && bp == AlignUp(old(bp)) >= old(bp) && bitk % 8 == 0 && bitk <= old(bitk)
    {
      hide *;
      Bounds();
      AlignIs(bp, bitk, pos);
      DumpBits(bitk % 8);
    }

    /** Gives c unused bytes back to the input; the buffer still holds them above its bits. */
    method GiveBack(c: nat)
      requires Valid() && 8 * c <= bitk
      modifies this`bitk, this`pos, this`ahead
      ensures Valid() && bp == old(bp) && bitk == old(bitk) - 8 * c && pos == old(pos) - c
    {
      bitk := bitk - 8 * c;
      pos := pos - c;
      ahead := ahead + c;
    }

    /** b = k = 0: drops the whole buffer, which holds just the bits up to a byte boundary. */
    method DropAll()
      requires Valid() && bitk % 8 == 0 && ahead == 0
      modifies this`bitb, this`bitk, this`bp
      ensures Valid() && bp == old(bp) + old(bitk) && bitk == 0
    {
      bp := bp + bitk;
      bitb, bitk := 0, 0;
    }

    /** The length of a stored block and its complement; both are dropped only when they agree. */
    method TakeLengths(r: Ret) returns (ok: bool, n: nat, m: nat, r': Ret)
      requires Valid() && bitk % 8 == 0
      modifies this`bitb, this`bitk, this`pos, this`ahead, this`bp
      ensures Valid() && (ok <==> old(bp) + 32 <= 8 * limit)
      ensures bp == old(bp) + (if ok && n + m == 65535 then 32 else 0)
      ensures ok ==> n == Peek(input, old(bp), 16) && m == Peek(input, old(bp) + 16, 16)
      ensures if ok && n + m == 65535 then bitk == 0 && ahead == 0 else bitk % 8 == 0
      ensures r' == r || r' == Z_OK
    {
      hide *;
      n, m := 0, 0;
      ok, r' := NeedBits(32, r);
      Bounds();
      if ok {
        n := Bits(16);
        m := BitsAbove(16, 16);
        if n + m == 65535 {
          DropAll();
        }
      }
    }

    /** Takes t bytes straight from the input, past an empty buffer. */
    method TakeBytes(t: nat) returns (s: seq<byte>)
      requires Valid() && bitk == 0 && ahead == 0 && pos + t <= limit
      modifies this`pos, this`bp
      ensures Valid() && bp == old(bp) + 8 * t && pos == old(pos) + t
      ensures s == input[old(pos)..pos]
    {
      s := input[pos..pos + t];
      pos := pos + t;
      bp := bp + 8 * t;
    }
  }

  lemma AlignIs(p: nat, k: nat, pos: nat)
    requires p + k == 8 * pos
    ensures AlignUp(p) == p + k % 8
  {
  }

  lemma LoadByte(input: seq<byte>, b: nat, k: nat, ahead: nat, bp: nat, pos: nat)
    requires Holds(input, b, k, ahead, bp) && bp + k == 8 * pos && pos < |input| && k <= 24
    ensures Holds(input, Or(b, Low(Shl(input[pos], k), 32)), k + 8, if ahead > 0 then ahead - 1 else 0, bp)
  {
    hide Low, Shl, Shr, Or, Pow2, Value;
    PeekByte(input, pos);
    InWord(input[pos], k);
    if ahead > 0 {
      PeekDrop(input, bp, k, 8 * ahead);
      PeekDrop(input, bp + k, 8, 8 * (ahead - 1));
      OrSame(b, input[pos], k, 8);
    } else {
      OrAbove(b, input[pos], k);
      PeekSplit(input, bp, k, 8);
    }
  }

  /** A byte shifted by at most 24 bits fits a 32-bit word. */
  lemma InWord(x: nat, k: nat)
    requires x < 256 && k <= 24
    ensures Low(Shl(x, k), 32) == Shl(x, k)
  {
    hide Low, Shl, Pow2;
    EightBits();
    ShlBound(x, 8, k);
    Pow2Mono(8 + k, 32);
    LowSmall(Shl(x, k), 32);
  }
}
