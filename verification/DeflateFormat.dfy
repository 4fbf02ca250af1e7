/**
 * What a compressed stream stands for, as section 3.2 of RFC 1951 defines it:
 * blocks of tokens under canonical codes, without tables, states or lookups.
 */
module DeflateFormat {
  import opened Stream
  import opened CodeLengths
  import opened InflateTrees
  import opened TreeCallers
  import opened FixedTrees
  import opened InflateSpec
  import opened FormatNumbers
  import Lz77
  import OutputWindow

  /** The symbol whose code the bits p start with, or -1. */
  ghost function Symbol(b: seq<nat>, p: nat): (y: int)
    ensures y >= 0 ==> StartsWith(b, y, p)
    ensures y < 0 ==> forall z: nat :: !StartsWith(b, z, p)
  {
    if exists z: nat :: StartsWith(b, z, p) then
      var z: nat :| StartsWith(b, z, p); z
    else -1
  }

  // ---- sections 3.2.3 and 3.2.5: the data of a compressed block ----

  /** A literal or a match with the bit after it, the end of the block, or neither. */
  datatype Piece = Piece(t: Lz77.Token, end: nat) | EndBlock(end: nat) | NoPiece

  /** What the bits from p on are under the code lengths ll and dl. */
  ghost function PieceAt(input: seq<byte>, p: nat, ll: seq<nat>, dl: seq<nat>): Piece {
    var y := Symbol(ll, Peek(input, p, 15));
    if y < 0 then NoPiece
    else if y < 256 then Piece(Lz77.Literal(y), p + ll[y])
    else if y == 256 then EndBlock(p + ll[y])
    else MatchAt(input, p + ll[y], y - 257, dl)
  }

  /** A match: length symbol i has just been read. */
  ghost function MatchAt(input: seq<byte>, p: nat, i: nat, dl: seq<nat>): Piece {
    if i >= 29 then NoPiece
    else DistanceAt(input, p + LengthExtra(i), LengthBase(i) + Peek(input, p, LengthExtra(i)), dl)
  }

  ghost function DistanceAt(input: seq<byte>, p: nat, len: nat, dl: seq<nat>): Piece {
    var z := Symbol(dl, Peek(input, p, 15));
    if z < 0 || z >= 30 then NoPiece
    else Piece(Lz77.Match(DistBase(z) + Peek(input, p + dl[z], DistExtra(z)), len), p + dl[z] + DistExtra(z))
  }

  datatype Tokens = Tokens(toks: seq<Lz77.Token>, end: nat) | NoTokens

  /** The first n tokens from bit p on. */
  ghost function TokensAt(input: seq<byte>, p: nat, ll: seq<nat>, dl: seq<nat>, n: nat): Tokens {
    if n == 0 then Tokens([], p)
    else match TokensAt(input, p, ll, dl, n - 1)
      case NoTokens => NoTokens
      case Tokens(ts, q) => match PieceAt(input, q, ll, dl)
        case Piece(t, r) => Tokens(ts + [t], r)
        case _ => NoTokens
  }

  /** The bits from p to q are these tokens and the end of the block. */
  ghost predicate Coded(input: seq<byte>, p: nat, ll: seq<nat>, dl: seq<nat>, toks: seq<Lz77.Token>, q: nat) {
    var r := TokensAt(input, p, ll, dl, |toks|);
    r.Tokens? && r.toks == toks && PieceAt(input, r.end, ll, dl) == EndBlock(q)
  }

  // ---- section 3.2.7: the code lengths of a dynamic block ----

  /** The lengths of the code-length code: n of them are sent, three bits each, in an order of their own. */
  ghost function CodeLens(input: seq<byte>, p: nat, n: nat): (cl: seq<nat>)
    ensures |cl| == 19
  {
    hide SentPlace, SENT_AT;
    seq(19, k requires 0 <= k < 19 => if SentPlace(k) < n then Peek(input, p + 3 * SentPlace(k), 3) else 0)
  }

  /** The code-length symbol that the bits p start with; when only one symbol is used, any bits stand for it. */
  ghost function LengthSymbol(cl: seq<nat>, p: nat): (y: nat)
    ensures y < |cl| || y == 0
  {
    if Symbol(cl, p) >= 0 then Symbol(cl, p)
    else if exists z: nat :: z < |cl| && cl[z] > 0 then
      var z: nat :| z < |cl| && cl[z] > 0; z
    else 0
  }

  datatype Sent = Sent(lens: seq<nat>, end: nat) | NoneSent

  /** The code lengths that the first m symbols from bit p on give, with the repeats of symbols 16 to 18. */
  ghost function SentAt(input: seq<byte>, p: nat, cl: seq<nat>, m: nat): Sent
    requires |cl| == 19
  {
    if m == 0 then Sent([], p)
    else match SentAt(input, p, cl, m - 1)
      case NoneSent => NoneSent
      case Sent(got, q) =>
        var y := LengthSymbol(cl, Peek(input, q, 15));
        var r := q + cl[y];
        if y < 16 then Sent(got + [y], r)
        else if y == 16 && got == [] then NoneSent
        else Sent(got + Repeat(TimesBase(y) + Peek(input, r, TimesBits(y)), if y == 16 then got[|got| - 1] else 0),
                  r + TimesBits(y))
  }

  /**
   * The header of a dynamic block from bit p on gives the lengths
   * ll and dl in m code-length symbols; the codes begin at bit q.
   */
  ghost predicate Header(input: seq<byte>, p: nat, ll: seq<nat>, dl: seq<nat>, m: nat, q: nat) {
    var n := 4 + Peek(input, p + 10, 4);
    var cl := CodeLens(input, p + 14, n);
    && |ll| == 257 + Peek(input, p, 5) <= 286 && |dl| == 1 + Peek(input, p + 5, 5)
    && Decodable(cl) && DecodablePair(ll, dl)
    && SentAt(input, p + 14 + 3 * n, cl, m) == Sent(ll + dl, q)
  }

  // ---- section 3.2.3: blocks ----

  datatype Body =
    | Plain(bytes: seq<byte>)
    | Fixed(toks: seq<Lz77.Token>)
    | Dynamic(ll: seq<nat>, dl: seq<nat>, m: nat, first: nat, toks: seq<Lz77.Token>)

  /** A block and the bits that it occupies. */
  datatype Block = Block(start: nat, end: nat, body: Body)

  ghost predicate Encoded(input: seq<byte>, b: Block, last: bool) {
    && Peek(input, b.start, 1) == (if last then 1 else 0) && b.end <= 8 * |input|
    && match b.body
       case Plain(s) =>
         var p := AlignUp(b.start + 3);
         && Peek(input, b.start + 1, 2) == 0
         && Peek(input, p, 16) == |s| && Peek(input, p + 16, 16) == 65535 - |s|
         && p % 8 == 0 && b.end == p + 32 + 8 * |s| && input[p / 8 + 4..b.end / 8] == s
       case Fixed(toks) =>
         Peek(input, b.start + 1, 2) == 1 && Coded(input, b.start + 3, FixedLengths(), FixedDistances(), toks, b.end)
       case Dynamic(ll, dl, m, first, toks) =>
         && Peek(input, b.start + 1, 2) == 2
         && Header(input, b.start + 3, ll, dl, m, first) && Coded(input, first, ll, dl, toks, b.end)
  }

  function Finish(bs: seq<Block>): nat { if bs == [] then 0 else bs[|bs| - 1].end }

  /** The blocks follow each other from the first bit on; the last flag is set on the last if done, else on none. */
  ghost predicate Blocks(input: seq<byte>, bs: seq<Block>, done: bool) {
    (done ==> bs != []) &&
    forall i | 0 <= i < |bs| :: bs[i].start == Finish(bs[..i]) && Encoded(input, bs[i], done && i == |bs| - 1)
  }

  /** The blocks of dynamic codes are such as inflate takes. */
  predicate Trimmed(bs: seq<Block>) { forall i | 0 <= i < |bs| :: TrimmedBody(bs[i].body) }

  predicate TrimmedBody(b: Body) { b.Dynamic? ==> TrimmedPair(b.ll, b.dl) }

  // ---- what the blocks stand for ----

  /** A token after the output so far; base is what a distance beyond the output finds. */
  function Put(base: seq<byte>, out: seq<byte>, t: Lz77.Token): seq<byte>
    requires |base| > 0
  {
    match t
    case Literal(c) => out + [c]
    case Match(dist, len) => if dist == 0 then out else OutputWindow.Extend(base, out, dist, len)
  }

  function PutAll(base: seq<byte>, out: seq<byte>, toks: seq<Lz77.Token>): seq<byte>
    requires |base| > 0
  {
    if toks == [] then out else Put(base, PutAll(base, out, toks[..|toks| - 1]), toks[|toks| - 1])
  }

  function Add(base: seq<byte>, out: seq<byte>, b: Body): seq<byte>
    requires |base| > 0
  {
    match b
    case Plain(s) => out + s
    case Fixed(toks) => PutAll(base, out, toks)
    case Dynamic(_, _, _, _, toks) => PutAll(base, out, toks)
  }

  function Content(base: seq<byte>, bs: seq<Block>): seq<byte>
    requires |base| > 0
  {
    if bs == [] then [] else Add(base, Content(base, bs[..|bs| - 1]), bs[|bs| - 1].body)
  }

  // ---- elementary facts ----

  lemma SymbolIs(b: seq<nat>, s: nat, d: seq<nat>, e: seq<nat>, y: nat, p: nat)
    requires Proper(b, s, d, e) && StartsWith(b, y, p)
    ensures Symbol(b, p) == y
  {
    hide StartsWith, Proper;
    PrefixFree(b, s, d, e, y, Symbol(b, p), p);
  }

  lemma PutMore(base: seq<byte>, out: seq<byte>, toks: seq<Lz77.Token>, t: Lz77.Token)
    requires |base| > 0
    ensures PutAll(base, out, toks + [t]) == Put(base, PutAll(base, out, toks), t)
  {
    assert (toks + [t])[..|toks|] == toks;
  }

  lemma BlocksMore(input: seq<byte>, bs: seq<Block>, b: Block, done: bool)
    requires Blocks(input, bs, false) && b.start == Finish(bs) && Encoded(input, b, done)
    ensures Blocks(input, bs + [b], done) && Finish(bs + [b]) == b.end
  {
    hide Encoded;
    var cs := bs + [b];
    forall i | 0 <= i < |cs|
      ensures cs[i].start == Finish(cs[..i]) && Encoded(input, cs[i], done && i == |cs| - 1)
    {
      assert cs[..i] == if i < |bs| then bs[..i] else bs;
    }
  }

  lemma ContentMore(base: seq<byte>, bs: seq<Block>, b: Block)
    requires |base| > 0
    ensures Content(base, bs + [b]) == Add(base, Content(base, bs), b.body)
  {
    assert (bs + [b])[..|bs|] == bs;
  }

  /** When no distance reaches beyond the output or the window, the tokens stand for their LZ77 expansion. */
  ghost predicate Near(out: seq<byte>, toks: seq<Lz77.Token>, size: nat) {
    forall i | 0 <= i < |toks| && toks[i].Match? ::
      0 < toks[i].dist <= size && toks[i].dist <= |Lz77.Expand(out, toks[..i])|
  }

  lemma {:induction false} PutAllIsExpand(base: seq<byte>, out: seq<byte>, toks: seq<Lz77.Token>)
    requires |base| > 0 && Near(out, toks, |base|)
    ensures PutAll(base, out, toks) == Lz77.Expand(out, toks)
    decreases |toks|
  {
    hide Lz77.Copy, OutputWindow.Extend;
    if toks != [] {
      var us := toks[..|toks| - 1];
      forall i | 0 <= i < |us| && us[i].Match?
        ensures 0 < us[i].dist <= |base| && us[i].dist <= |Lz77.Expand(out, us[..i])|
      {
        assert us[..i] == toks[..i];
      }
      PutAllIsExpand(base, out, us);
      var t := toks[|toks| - 1];
      if t.Match? {
        Lz77.CopyIsExtend(base, Lz77.Expand(out, us), t.dist, t.len);
      }
    }
  }
}
