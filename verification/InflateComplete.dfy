/**
 * The machine decodes every stream of blocks: it never reports an
 * error on one and stops only at its end or for want of input.
 */
module InflateComplete {
  import opened Arith
  import opened CanonicalCode
  import opened HuftSpec
  import opened CodeLengths
  import opened InflateTrees
  import opened TreeCallers
  import opened FixedTrees
  import opened Stream
  import opened InflateSpec
  import opened DeflateFormat
  import opened SymbolRead
  import opened InflateNarrow
  import LengthFits
  import opened InflateRight
  import Lz77
  import OutputWindow

  // ---- the data of a block is determined by the bits ----

  lemma PieceOnward(input: seq<byte>, p: nat, ll: seq<nat>, dl: seq<nat>)
    ensures match PieceAt(input, p, ll, dl) case Piece(_, q) => p <= q case EndBlock(q) => p <= q case NoPiece => true
  {
    hide Peek, Symbol, StartsWith, MatchAt, PieceAt;
    var y := Symbol(ll, Peek(input, p, 15));
    SymbolBelow(ll, Peek(input, p, 15));
    PieceCases(input, p, ll, dl, y);
    if y > 256 {
      MatchOnward(input, p + ll[y], y - 257, dl);
    }
  }

  lemma SymbolBelow(b: seq<nat>, p: nat)
    ensures Symbol(b, p) < |b|
  {
    hide Symbol;
  }

  lemma MatchOnward(input: seq<byte>, p: nat, i: nat, dl: seq<nat>)
    ensures MatchAt(input, p, i, dl).NoPiece? || (MatchAt(input, p, i, dl).Piece? && p <= MatchAt(input, p, i, dl).end)
    ensures i < 29 ==>
      MatchAt(input, p, i, dl) == DistanceAt(input, p + CPLEXT[i], CPLENS[i] + Peek(input, p, CPLEXT[i]), dl)
  {
    hide Peek, DistanceAt, CPLENS, CPLEXT;
    LengthEnds();
    if i < 29 {
      DistanceOnward(input, p + CPLEXT[i], CPLENS[i] + Peek(input, p, CPLEXT[i]), dl);
    }
  }

  lemma DistanceOnward(input: seq<byte>, p: nat, len: nat, dl: seq<nat>)
    ensures DistanceAt(input, p, len, dl).NoPiece?
      || (DistanceAt(input, p, len, dl).Piece? && p <= DistanceAt(input, p, len, dl).end)
  {
    hide Peek, Symbol, StartsWith;
    SymbolBelow(dl, Peek(input, p, 15));
  }

  lemma {:induction false} TokensOnward(input: seq<byte>, p: nat, ll: seq<nat>, dl: seq<nat>, m: nat, n: nat)
    requires m <= n && TokensAt(input, p, ll, dl, n).Tokens?
    ensures TokensAt(input, p, ll, dl, m).Tokens?
    ensures p <= TokensAt(input, p, ll, dl, m).end <= TokensAt(input, p, ll, dl, n).end
    ensures |TokensAt(input, p, ll, dl, n).toks| == n
    ensures TokensAt(input, p, ll, dl, m).toks == TokensAt(input, p, ll, dl, n).toks[..m]
    decreases n
  {
    hide PieceAt;
    if n > 0 {
      PieceOnward(input, TokensAt(input, p, ll, dl, n - 1).end, ll, dl);
      TokensOnward(input, p, ll, dl, if m < n then m else n - 1, n - 1);
    }
  }

  /** After the tokens of a whole block there is no further token. */
  lemma NotBeyond(input: seq<byte>, p: nat, ll: seq<nat>, dl: seq<nat>, toks: seq<Lz77.Token>, q: nat, n: nat)
    requires Coded(input, p, ll, dl, toks, q) && TokensAt(input, p, ll, dl, n).Tokens?
    ensures n <= |toks|
  {
    hide PieceAt;
    if n > |toks| {
      TokensOnward(input, p, ll, dl, |toks| + 1, n);
    }
  }

  lemma CodedUnique(input: seq<byte>, p: nat, ll: seq<nat>, dl: seq<nat>, toks: seq<Lz77.Token>, q: nat,
                    toks': seq<Lz77.Token>, q': nat)
    requires Coded(input, p, ll, dl, toks, q) && Coded(input, p, ll, dl, toks', q')
    ensures toks == toks' && q == q'
  {
    hide PieceAt, TokensAt;
    NotBeyond(input, p, ll, dl, toks, q, |toks'|);
    NotBeyond(input, p, ll, dl, toks', q', |toks|);
  }

  lemma {:induction false} SentOnward(input: seq<byte>, p: nat, cl: seq<nat>, m: nat, n: nat)
    requires |cl| == 19 && m <= n && SentAt(input, p, cl, n).Sent?
    ensures SentAt(input, p, cl, m).Sent? && p <= SentAt(input, p, cl, m).end <= SentAt(input, p, cl, n).end
    ensures SentAt(input, p, cl, m).lens <= SentAt(input, p, cl, n).lens
    ensures |SentAt(input, p, cl, m).lens| + (n - m) <= |SentAt(input, p, cl, n).lens|
    decreases n
  {
    hide Peek, LengthSymbol, Repeat, RepeatBits;
    if m < n {
      SentOnward(input, p, cl, m, n - 1);
    } else if n > 0 {
      SentOnward(input, p, cl, n - 1, n - 1);
    }
  }

  /** The code lengths too: as many symbols as it takes to give them all. */
  lemma SentUnique(input: seq<byte>, p: nat, cl: seq<nat>, m: nat, n: nat)
    requires |cl| == 19 && SentAt(input, p, cl, m).Sent? && SentAt(input, p, cl, n).Sent?
    requires |SentAt(input, p, cl, m).lens| == |SentAt(input, p, cl, n).lens|
    ensures m == n
  {
    hide SentAt;
    if m < n {
      SentOnward(input, p, cl, m, n);
    } else {
      SentOnward(input, p, cl, n, m);
    }
  }

  lemma HeaderUnique(input: seq<byte>, p: nat, ll: seq<nat>, dl: seq<nat>, m: nat, q: nat, ll': seq<nat>, dl': seq<nat>,
                     m': nat, q': nat)
    requires Header(input, p, ll, dl, m, q) && Header(input, p, ll', dl', m', q')
    ensures ll == ll' && dl == dl' && m == m' && q == q'
  {
    hide SentAt, Accept, DynAccept, Peek, CodeLens;
    var n := 4 + Peek(input, p + 10, 4);
    SentUnique(input, p + 14 + 3 * n, CodeLens(input, p + 14, n), m, m');
    assert ll == (ll + dl)[..|ll|] && dl == (ll + dl)[|ll|..] && ll' == (ll' + dl')[..|ll'|]
      && dl' == (ll' + dl')[|ll'|..];
  }

  lemma BlockUnique(input: seq<byte>, b: Block, last: bool, b': Block, last': bool)
    requires Encoded(input, b, last) && Encoded(input, b', last') && b.start == b'.start
    ensures b == b' && last == last'
  {
    hide Coded, Header, Peek, FixedLit, FixedDist, AlignUp;
    match b.body
    case Plain(s) =>
    case Fixed(toks) =>
      CodedUnique(input, b.start + 3, FixedLit(), FixedDist(), toks, b.end, b'.body.toks, b'.end);
    case Dynamic(ll, dl, m, first, toks) =>
      HeaderUnique(input, b.start + 3, ll, dl, m, first, b'.body.ll, b'.body.dl, b'.body.m, b'.body.first);
      CodedUnique(input, first, ll, dl, toks, b.end, b'.body.toks, b'.end);
  }

  lemma BlocksAt(input: seq<byte>, bs: seq<Block>, done: bool, i: nat)
    requires Blocks(input, bs, done) && i < |bs|
    ensures bs[i].start == Finish(bs[..i]) && Encoded(input, bs[i], done && i == |bs| - 1)
  {
    hide Encoded;
  }

  lemma BlocksPrefix(input: seq<byte>, bs: seq<Block>, done: bool, k: nat)
    requires Blocks(input, bs, done) && k < |bs|
    ensures Blocks(input, bs[..k], false)
  {
    hide Encoded;
    forall i | 0 <= i < k
      ensures bs[..k][i].start == Finish(bs[..k][..i]) && Encoded(input, bs[..k][i], false)
    {
      assert bs[..k][..i] == bs[..i];
    }
  }

  /** Blocks understood so far are the first ones of the whole stream, and not all of them while the last is missing. */
  lemma {:induction false} SameBlocks(input: seq<byte>, cs: seq<Block>, bs: seq<Block>)
    requires Blocks(input, cs, false) && Blocks(input, bs, true)
    ensures |cs| < |bs| && cs == bs[..|cs|]
    decreases |cs|
  {
    hide Blocks, Encoded;
    if cs == [] {
      NotNone(input, bs);
    } else {
      var k := |cs| - 1;
      BlocksPrefix(input, cs, false, k);
      SameBlocks(input, cs[..k], bs);
      BlocksAt(input, cs, false, k);
      BlocksAt(input, bs, true, k);
      BlockUnique(input, cs[k], false, bs[k], k == |bs| - 1);
      assert cs == cs[..k] + [cs[k]] && bs[..k + 1] == bs[..k] + [bs[k]];
    }
  }

  lemma NotNone(input: seq<byte>, bs: seq<Block>)
    requires Blocks(input, bs, true)
    ensures bs != []
  {
  }

  /** A stream has one decoding. */
  lemma OneDecoding(input: seq<byte>, bs: seq<Block>, cs: seq<Block>)
    requires Blocks(input, bs, true) && Blocks(input, cs, true)
    ensures bs == cs
  {
    hide Blocks, Encoded;
    NotNone(input, bs);
    NotNone(input, cs);
    var m, n := |bs| - 1, |cs| - 1;
    BlocksPrefix(input, bs, true, m);
    BlocksPrefix(input, cs, true, n);
    SameBlocks(input, bs[..m], cs);
    SameBlocks(input, cs[..n], bs);
    BlocksAt(input, bs, true, m);
    BlocksAt(input, cs, true, n);
    BlockUnique(input, bs[m], true, cs[n], true);
    assert bs == bs[..m] + [bs[m]] && cs == cs[..n] + [cs[n]];
  }

  // ---- where the machine stands within the whole stream ----

  lemma TokensStart(input: seq<byte>, p: nat, ll: seq<nat>, dl: seq<nat>, toks: seq<Lz77.Token>, q: nat)
    requires Coded(input, p, ll, dl, toks, q)
    ensures p <= q
  {
    hide PieceAt, TokensAt;
    TokensOnward(input, p, ll, dl, 0, |toks|);
    PieceOnward(input, TokensAt(input, p, ll, dl, |toks|).end, ll, dl);
  }

  lemma HeaderStart(input: seq<byte>, p: nat, ll: seq<nat>, dl: seq<nat>, m: nat, q: nat)
    requires Header(input, p, ll, dl, m, q)
    ensures p + 14 + 3 * (4 + Peek(input, p + 10, 4)) <= q
  {
    hide SentAt, Accept, DynAccept, Peek, CodeLens;
    var n := 4 + Peek(input, p + 10, 4);
    SentOnward(input, p + 14 + 3 * n, CodeLens(input, p + 14, n), m, m);
  }

  lemma BlockOnward(input: seq<byte>, b: Block, last: bool)
    requires Encoded(input, b, last)
    ensures b.start + 3 <= b.end <= 8 * |input|
  {
    hide Coded, Header, Peek, FixedLit, FixedDist, AlignUp;
    match b.body
    case Plain(s) => AlignUpAligned(b.start + 3);
    case Fixed(toks) => TokensStart(input, b.start + 3, FixedLit(), FixedDist(), toks, b.end);
    case Dynamic(ll, dl, m, first, toks) =>
      HeaderStart(input, b.start + 3, ll, dl, m, first);
      TokensStart(input, first, ll, dl, toks, b.end);
  }

  lemma {:induction false} EndsOnward(input: seq<byte>, bs: seq<Block>, k: nat)
    requires Blocks(input, bs, true) && k < |bs|
    ensures bs[k].end <= Finish(bs)
    decreases |bs| - k
  {
    hide Blocks, Encoded;
    if k + 1 < |bs| {
      EndsOnward(input, bs, k + 1);
      BlocksAt(input, bs, true, k + 1);
      BlockOnward(input, bs[k + 1], k + 1 == |bs| - 1);
      assert bs[..k + 1][k] == bs[k];
    }
  }

  /** The block that the machine is in, among those of the whole stream. */
  lemma Current(input: seq<byte>, g: Progress, bs: seq<Block>) returns (b: Block, last: bool)
    requires Blocks(input, g.bs, false) && Blocks(input, bs, true)
    ensures b.start == Finish(g.bs) && Encoded(input, b, last) && b.start + 3 <= b.end <= Finish(bs)
    ensures b.end <= 8 * |input| && (Trimmed(bs) ==> TrimmedBody(b.body))
  {
    hide Blocks, Encoded;
    var k := |g.bs|;
    SameBlocks(input, g.bs, bs);
    b, last := bs[k], k == |bs| - 1;
    BlocksAt(input, bs, true, k);
    BlockOnward(input, b, last);
    EndsOnward(input, bs, k);
  }

  /**
   * With eight bits beyond the blocks to look at there is a next step,
   * and if the block is such as inflate takes it does not find an error.
   */
  ghost predicate Fares(input: seq<byte>, base: seq<byte>, a: AState, end: nat, trim: bool)
    requires |base| > 0 && WF(a)
  {
    var b := Step(input, base, |input|, a);
    (end + 8 <= 8 * |input| ==> b.Some?) && (b.Some? && trim ==> !b.value.mode.Bad?)
  }

  lemma KindIs(input: seq<byte>, b: Block, last: bool)
    requires Encoded(input, b, last)
    ensures Peek(input, b.start + 1, 2)
      == match b.body case Plain(_) => 0 case Fixed(_) => 1 case Dynamic(_, _, _, _, _) => 2
  {
    hide Peek, Coded, Header, AlignUp;
  }

  lemma TypeFares(input: seq<byte>, base: seq<byte>, a: AState, b: Block, last: bool, end: nat, trim: bool)
    requires |base| > 0 && a.mode.Type? && Encoded(input, b, last) && a.bp == b.start
    requires b.start + 3 <= b.end <= 8 * |input|
    ensures Fares(input, base, a, end, trim)
  {
    hide Peek, Encoded, FixedLitTree, FixedDistTree, Tree.Ok;
    KindIs(input, b, last);
    ThreeBits(input, a.bp);
  }

  lemma LensFares(input: seq<byte>, base: seq<byte>, a: AState, b: Block, last: bool, end: nat, trim: bool)
    requires |base| > 0 && a.mode.Lens? && WF(a) && Encoded(input, b, last) && a.bp == AlignUp(b.start + 3)
    requires Peek(input, b.start + 1, 2) == 0
    ensures Fares(input, base, a, end, trim)
  {
    hide Peek, AlignUp, Coded, Header;
  }

  lemma PlainFares(input: seq<byte>, base: seq<byte>, a: AState, g: Progress, b: Block, last: bool, end: nat,
                   trim: bool)
    requires |base| > 0 && a.mode.Stored? && WF(a) && PlainGood(input, base, a, g, a.mode.left)
    requires Encoded(input, b, last) && b.start == Finish(g.bs)
    ensures Fares(input, base, a, end, trim)
  {
    hide *;
    StoredLeft(a);
    PlainRoom(input, base, a, g, a.mode.left, b, last);
    StoredGoes(input, base, a, end, trim);
  }

  lemma StoredLeft(a: AState)
    requires a.mode.Stored? && WF(a)
    ensures a.mode.left > 0
  {
  }

  lemma PlainRoom(input: seq<byte>, base: seq<byte>, a: AState, g: Progress, left: nat, b: Block, last: bool)
    requires |base| > 0 && PlainGood(input, base, a, g, left) && left > 0 && Encoded(input, b, last)
    requires b.start == Finish(g.bs)
    ensures a.bp + 8 <= 8 * |input|
  {
    hide Peek, AlignUp, Coded, Header, Content, Finish;
  }

  lemma StoredGoes(input: seq<byte>, base: seq<byte>, a: AState, end: nat, trim: bool)
    requires |base| > 0 && a.mode.Stored? && WF(a) && a.bp + 8 <= 8 * |input|
    ensures Fares(input, base, a, end, trim)
  {
  }

  /** The header that the machine has begun to read. */
  lemma DynamicIs(input: seq<byte>, b: Block, last: bool)
    requires Encoded(input, b, last) && Peek(input, b.start + 1, 2) == 2
    ensures b.body.Dynamic? && Header(input, b.start + 3, b.body.ll, b.body.dl, b.body.m, b.body.first)
    ensures b.start + 17 + 3 * (4 + Peek(input, b.start + 13, 4)) <= b.body.first <= b.end
    ensures Coded(input, b.body.first, b.body.ll, b.body.dl, b.body.toks, b.end)
  {
    hide Peek, Coded, Header, AlignUp;
    HeaderStart(input, b.start + 3, b.body.ll, b.body.dl, b.body.m, b.body.first);
    TokensStart(input, b.body.first, b.body.ll, b.body.dl, b.body.toks, b.end);
  }

  lemma TableFares(input: seq<byte>, base: seq<byte>, a: AState, b: Block, last: bool, end: nat, trim: bool)
    requires |base| > 0 && a.mode.Table? && a.bp == b.start + 3 && b.end <= 8 * |input|
    requires Encoded(input, b, last) && Peek(input, b.start + 1, 2) == 2 && (trim ==> TrimmedBody(b.body))
    ensures Fares(input, base, a, end, trim)
  {
    hide Peek, Encoded, Coded, Accept, DynAccept, SentAt, CodeLens;
    DynamicIs(input, b, last);
    FourteenBits(input, a.bp);
  }

  lemma BTreeFares(input: seq<byte>, base: seq<byte>, a: AState, g: Progress, b: Block, last: bool, end: nat,
                   trim: bool, table: nat, got: seq<nat>)
    requires |base| > 0 && a.mode == BTree(table, got) && WF(a) && BTreeGood(input, base, a, g, table, got)
    requires b.end <= 8 * |input|
    requires Encoded(input, b, last) && b.start == Finish(g.bs)
    ensures Fares(input, base, a, end, trim)
  {
    hide Peek, Encoded, Accept, DynAccept, Unpermute, BTreeGood, LenCodes, TypeStep, LensStep, TableStep, DTreeStep,
      CodesStep;
    BTreeReady(input, base, a, g, b, last, table, got);
  }

  /** The lengths still to come are there, and all of them are those of the block. */
  lemma BTreeReady(input: seq<byte>, base: seq<byte>, a: AState, g: Progress, b: Block, last: bool, table: nat,
                   got: seq<nat>)
    requires |base| > 0 && BTreeGood(input, base, a, g, table, got) && BTreeWF(table, got)
    requires Encoded(input, b, last) && b.start == Finish(g.bs) && b.end <= 8 * |input|
    ensures |got| < LenCodes(table) ==> a.bp + 3 <= 8 * |input|
    ensures |got| >= LenCodes(table) ==> Accept(BitsTree(Unpermute(got)))
  {
    hide Peek, Encoded, Coded, Accept, DynAccept, SentAt, CodeLens, Content, Finish, Unpermute, Decodable,
      DecodablePair, Blocks, Trimmed, SENT_AT, AlignUp;
    DynamicIs(input, b, last);
    AcceptIsDecodable(BitsTree(CodeLens(input, b.start + 17, 4 + Peek(input, b.start + 13, 4))));
    FourteenBits(input, b.start + 3);
    UnpermuteIs(input, b.start + 17, got);
  }

  /** The code lengths read so far are the first of those that the block has. */
  lemma LensFit(input: seq<byte>, base: seq<byte>, a: AState, g: Progress, b: Block, last: bool, table: nat,
                cl: seq<nat>, got: seq<nat>)
    requires |base| > 0 && DTreeGood(input, base, a, g, table, cl, got) && |got| <= LitCount(table) + DistCount(table)
    requires Encoded(input, b, last) && b.start == Finish(g.bs)
    ensures b.body.Dynamic? && a.bp <= b.body.first <= b.end && LitCount(table) == |b.body.ll|
    ensures DistCount(table) == |b.body.dl|
    ensures got <= b.body.ll + b.body.dl && |b.body.ll| <= 286 && DecodablePair(b.body.ll, b.body.dl)
    ensures |got| < LitCount(table) + DistCount(table) ==>
      var r := SentAt(input, b.start + 17 + 3 * LenCodes(table), cl, g.m + 1);
        r.Sent? && r.lens <= b.body.ll + b.body.dl && r.end <= b.body.first
  {
    hide Peek, Encoded, Coded, Accept, DynAccept, SentAt, CodeLens, Content, Decodable, DecodablePair;
    DynamicIs(input, b, last);
    FourteenBits(input, b.start + 3);
    var p, m, n := b.start + 17 + 3 * LenCodes(table), g.m, b.body.m;
    if n < m {
      SentOnward(input, p, cl, n, m);
    } else {
      SentOnward(input, p, cl, m, n);
      if m < n {
        SentOnward(input, p, cl, m + 1, n);
      }
    }
  }

  lemma DTreeFares(input: seq<byte>, base: seq<byte>, a: AState, g: Progress, b: Block, last: bool, end: nat,
                   trim: bool, table: nat, cl: seq<nat>, got: seq<nat>)
    requires |base| > 0 && a.mode == DTree(table, cl, got) && WF(a) && DTreeWF(table, cl, got)
    requires DTreeGood(input, base, a, g, table, cl, got)
    requires Encoded(input, b, last) && b.start == Finish(g.bs) && b.end <= 8 * |input| && b.end <= end
    requires trim ==> TrimmedBody(b.body)
    ensures Fares(input, base, a, end, trim)
  {
    hide *;
    DTreeIs(table, cl, got);
    DTreeSizes(table, cl, got);
    LensFit(input, base, a, g, b, last, table, cl, got);
    StepDTree(input, base, a, table, cl, got);
    FaresIs(input, base, a, end, trim);
    if |got| < LitCount(table) + DistCount(table) {
      DTreeHere(input, base, a, g, table, cl, got);
      SentMore(input, Finish(g.bs) + 17 + 3 * LenCodes(table), cl, g.m, got, a.bp);
      ReadSymIs(cl, input, a.bp);
      CodeRoot(table, cl, got);
      LengthReads(input, a, table, cl, got, b.body.ll + b.body.dl, b.body.first, end);
    } else {
      assert got == b.body.ll + b.body.dl;
      assert got[..LitCount(table)] == b.body.ll && got[LitCount(table)..] == b.body.dl;
      CountsSmall(table);
      TrimmedIs(b.body);
      DynIsDecodable(b.body.ll, b.body.dl);
      TreesMade(input, a, table, cl, got);
    }
  }

  lemma TrimmedIs(b: Body)
    ensures TrimmedBody(b) <==> (b.Dynamic? ==> TrimmedPair(b.ll, b.dl))
  {
  }

  lemma FaresIs(input: seq<byte>, base: seq<byte>, a: AState, end: nat, trim: bool)
    requires |base| > 0 && WF(a)
    ensures Fares(input, base, a, end, trim) <==>
      (end + 8 <= 8 * |input| ==> Step(input, base, |input|, a).Some?)
      && (Step(input, base, |input|, a).Some? && trim ==> !Step(input, base, |input|, a).value.mode.Bad?)
  {
    hide Step, WF;
  }

  lemma DTreeSizes(table: nat, cl: seq<nat>, got: seq<nat>)
    requires DTreeWF(table, cl, got)
    ensures |got| <= LitCount(table) + DistCount(table) && Accept(BitsTree(cl)) && TableWF(table)
  {
    hide Accept, LitCount, DistCount;
  }

  lemma StepDTree(input: seq<byte>, base: seq<byte>, a: AState, table: nat, cl: seq<nat>, got: seq<nat>)
    requires |base| > 0 && a.mode == DTree(table, cl, got) && WF(a) && Accept(BitsTree(cl))
    requires |got| <= LitCount(table) + DistCount(table)
    ensures Step(input, base, |input|, a) == DTreeStep(input, |input|, a, table, cl, got)
    ensures |got| < LitCount(table) + DistCount(table) ==>
      Step(input, base, |input|, a) == ReadLength(input, |input|, a, table, cl, got)
  {
    hide Accept, ReadLength, DynAccept, Tree.Empty;
  }

  lemma DTreeHere(input: seq<byte>, base: seq<byte>, a: AState, g: Progress, table: nat, cl: seq<nat>, got: seq<nat>)
    requires |base| > 0 && DTreeGood(input, base, a, g, table, cl, got)
    ensures |cl| == 19 && SentAt(input, Finish(g.bs) + 17 + 3 * LenCodes(table), cl, g.m) == Sent(got, a.bp)
  {
    hide Peek, Begins, Content, LenCodes, CodeLens, SentAt;
  }

  lemma CodeRoot(table: nat, cl: seq<nat>, got: seq<nat>)
    requires DTreeWF(table, cl, got)
    ensures Accept(BitsTree(cl)) && Root(BitsTree(cl)) <= 7
  {
    hide Accept, Root, LitCount, DistCount;
    LengthFits.AcceptNarrow(BitsTree(cl));
  }

  /** A code-length symbol of a valid header is read. */
  lemma LengthReads(input: seq<byte>, a: AState, table: nat, cl: seq<nat>, got: seq<nat>, all: seq<nat>, first: nat,
                    end: nat)
    requires |cl| == 19 && Accept(BitsTree(cl)) && |all| == LitCount(table) + DistCount(table) && a.bp <= first <= end
    requires first <= 8 * |input|
    requires Root(BitsTree(cl)) <= 7
    requires var y := LengthSymbol(cl, Peek(input, a.bp, 15)); var r := a.bp + cl[y];
      && y < 19 && ReadSym(input, a.bp, cl) == (y, cl[y])
      && if y < 16 then got + [y] <= all && r <= first
         else !(y == 16 && got == []) && r + RepeatBits(y) <= first
              && got + Repeat(RepeatBase(y) + Peek(input, r, RepeatBits(y)),
                              if y == 16 then got[|got| - 1] else 0) <= all
    ensures end + 8 <= 8 * |input| ==> ReadLength(input, |input|, a, table, cl, got).Some?
    ensures ReadLength(input, |input|, a, table, cl, got).Some? ==>
      !ReadLength(input, |input|, a, table, cl, got).value.mode.Bad?
  {
    hide Accept, Peek, ReadSym, Root, LitCount, DistCount, RepeatBits, RepeatBase, LengthSymbol;
  }

  lemma TreesMade(input: seq<byte>, a: AState, table: nat, cl: seq<nat>, got: seq<nat>)
    requires Accept(BitsTree(cl)) && |got| == LitCount(table) + DistCount(table)
    ensures DTreeStep(input, |input|, a, table, cl, got).Some?
    ensures DynAccept(got[..LitCount(table)], got[LitCount(table)..]) ==>
      !DTreeStep(input, |input|, a, table, cl, got).value.mode.Bad?
  {
    hide Accept, ReadLength, DynAccept, Tree.Empty;
  }

  // ---- within the codes ----

  /** The lengths in use are those of the block. */
  lemma OpenedIs(input: seq<byte>, g: Progress, last: bool, b: Block, last': bool) returns (toks: seq<Lz77.Token>)
    requires Opened(input, g, last) && Encoded(input, b, last') && b.start == Finish(g.bs)
    ensures Coded(input, g.first, g.ll, g.dl, toks, b.end)
  {
    hide Peek, Coded, Header, AlignUp, FixedLit, FixedDist;
    toks := if b.body.Fixed? || b.body.Dynamic? then b.body.toks else [];
    KindIs(input, b, last');
    if b.body.Dynamic? {
      HeaderUnique(input, b.start + 3, g.ll, g.dl, g.m, g.first, b.body.ll, b.body.dl, b.body.m, b.body.first);
    }
  }

  /** There is a next piece, and it ends within the block. */
  lemma PieceAhead(input: seq<byte>, g: Progress, toks: seq<Lz77.Token>, q: nat)
    requires Counted(input, g) && Coded(input, g.first, g.ll, g.dl, toks, q)
    ensures Here(input, g) <= q && !Next(input, g).NoPiece? && Next(input, g).end <= q
  {
    hide PieceAt;
    var n := |g.toks|;
    NotBeyond(input, g.first, g.ll, g.dl, toks, q, n);
    TokensOnward(input, g.first, g.ll, g.dl, n, |toks|);
    PieceOnward(input, TokensAt(input, g.first, g.ll, g.dl, |toks|).end, g.ll, g.dl);
    if n < |toks| {
      TokensOnward(input, g.first, g.ll, g.dl, n + 1, |toks|);
    }
  }

  /** The bits that the next step needs are not far beyond the piece. */
  lemma BitsAhead(input: seq<byte>, base: seq<byte>, lt: Tree, dt: Option<Tree>, cm: CodeMode, bp: nat, out: seq<byte>,
                  r: nat, piece: Piece, sofar: seq<byte>, dl: seq<nat>, q: nat)
    requires |base| > 0 && lt.Ok() && (dt.Some? ==> dt.value.Ok())
    requires Within(input, base, cm, lt, dt, bp, out, r, piece, sofar, dl)
    requires CodesWF(lt, dt, cm, bp) && r <= q && !piece.NoPiece? && piece.end <= q
    requires (dt.Some? ==> dt.value.b == dl) && piece == PieceAt(input, r, lt.b, dl)
    requires cm.Len? || cm.Dist? ==> cm.need <= 9
    ensures cm.Len? || cm.Dist? ==> bp + cm.need <= q + 8
    ensures cm.LenExt? || cm.DistExt? ==> bp + cm.get <= q
    ensures !cm.BadCode?
  {
    hide *;
    LenBound(lt, dt, cm, bp);
    OtherWithin(input, base, lt, dt, cm, bp, out, r, piece, sofar, dl);
    match cm
    case Len(w, need) =>
      LenWithin(input, base, lt, dt, w, need, bp, out, r, piece, sofar, dl);
      PieceLong(input, lt, r, dl);
    case LenExt(len, get) => DistanceOnward(input, bp + get, len + Peek(input, bp, get), dl);
    case Dist(len, w, need) =>
      DistWithin(input, base, lt, dt, len, w, need, bp, out, r, piece, sofar, dl);
      DistanceLong(input, dt.value, bp - w, len);
    case _ =>
  }

  /** A piece takes no fewer bits than its first code. */
  lemma PieceLong(input: seq<byte>, t: Tree, p: nat, dl: seq<nat>)
    requires t.Ok() && !PieceAt(input, p, t.b, dl).NoPiece?
    ensures LenAt(t.Job().c, Ahead(input, p)) <= PieceAt(input, p, t.b, dl).end - p
  {
    hide Tree.Ok, LenAt, Ahead, Peek, Symbol, StartsWith, TreeSym, IndexAt, Stands, MatchAt, DistanceAt, PieceAt,
      CountsOf, Over, Order, Off, Fill, Width, CPLENS, CPLEXT;
    StandsFor(t, input, p);
    var y := Symbol(t.b, Peek(input, p, 15));
    PieceCases(input, p, t.b, dl, y);
    if y > 256 {
      MatchOnward(input, p + t.b[y], y - 257, dl);
    }
  }

  lemma DistanceLong(input: seq<byte>, t: Tree, p: nat, len: nat)
    requires t.Ok() && !DistanceAt(input, p, len, t.b).NoPiece?
    ensures LenAt(t.Job().c, Ahead(input, p)) <= DistanceAt(input, p, len, t.b).end - p
  {
    hide Tree.Ok, LenAt, Ahead, Peek, Symbol, StartsWith, TreeSym, IndexAt, Stands;
    StandsFor(t, input, p);
  }

  lemma OtherWithin(input: seq<byte>, base: seq<byte>, lt: Tree, dt: Option<Tree>, cm: CodeMode, bp: nat,
                    out: seq<byte>, r: nat, piece: Piece, sofar: seq<byte>, dl: seq<nat>)
    requires |base| > 0 && lt.Ok() && (dt.Some? ==> dt.value.Ok())
    requires Within(input, base, cm, lt, dt, bp, out, r, piece, sofar, dl)
    ensures cm.LenExt? ==> piece == DistanceAt(input, bp + cm.get, cm.len + Peek(input, bp, cm.get), dl)
    ensures cm.DistExt? ==> piece == Piece(Lz77.Match(cm.dist + Peek(input, bp, cm.get), cm.len), bp + cm.get)
    ensures cm.BadCode? ==> piece.NoPiece?
  {
    hide Peek, DistanceAt, Tree.Ok, Ahead, LenFrom;
  }

  lemma CodesFare(input: seq<byte>, base: seq<byte>, a: AState, g: Progress, b: Block, last: bool, end: nat, trim: bool)
    requires |base| > 0 && a.mode.InCodes? && WF(a) && Good(input, base, a, g)
    requires Encoded(input, b, last) && b.start == Finish(g.bs) && b.end <= end && Narrow(input, a)
    ensures Fares(input, base, a, end, trim) && !a.mode.cm.BadCode?
  {
    hide *;
    InflateRight.CodesFacts(input, base, a, g);
    var lt, dt, cm := a.mode.lt, a.mode.dt, a.mode.cm;
    var toks := OpenedIs(input, g, a.last, b, last);
    PieceAhead(input, g, toks, b.end);
    AtMostNine(input, a);
    TheseTrees(input, base, a, g);
    BitsAhead(input, base, lt, dt, cm, a.bp, a.out, Here(input, g), Next(input, g), OutSoFar(base, g), g.dl, b.end);
    InflateRight.StepCodes(input, base, a);
    CodesGo(input, base, a, lt, dt, cm, end);
    FaresIs(input, base, a, end, trim);
  }

  lemma TheseTrees(input: seq<byte>, base: seq<byte>, a: AState, g: Progress)
    requires |base| > 0 && a.mode.InCodes? && Good(input, base, a, g)
    ensures a.mode.dt.Some? ==> a.mode.dt.value.b == g.dl
    ensures Next(input, g) == PieceAt(input, Here(input, g), a.mode.lt.b, g.dl)
  {
    hide Blocks, Content, Finish, Opened, Counted, Within, TreesWF, PieceAt, Here;
  }

  lemma CodesGo(input: seq<byte>, base: seq<byte>, a: AState, lt: Tree, dt: Option<Tree>, cm: CodeMode, end: nat)
    requires |base| > 0 && CodesWF(lt, dt, cm, a.bp) && !cm.BadCode?
    requires cm.Len? || cm.Dist? ==> a.bp + cm.need <= end + 8
    requires cm.LenExt? || cm.DistExt? ==> a.bp + cm.get <= end
    ensures var s := CodesStep(input, base, |input|, a, lt, dt, cm);
      (end + 8 <= 8 * |input| ==> s.Some?) && (s.Some? ==> !s.value.mode.Bad?)
  {
    hide TreesWF, Peek, TreeLook, TreeSym, Root, OutputWindow.HistByte, Tree.Ok;
  }

  /** Wherever the machine stands in a stream of blocks it goes on, or is done. */
  lemma AllFare(input: seq<byte>, base: seq<byte>, a: AState, g: Progress, bs: seq<Block>)
    requires |base| > 0 && WF(a) && Good(input, base, a, g) && Blocks(input, bs, true) && !a.mode.Bad?
    requires Narrow(input, a)
    ensures a.mode.Done? || Fares(input, base, a, Finish(bs), Trimmed(bs))
    ensures a.mode.InCodes? ==> !a.mode.cm.BadCode?
  {
    hide *;
    var end, trim := Finish(bs), Trimmed(bs);
    if a.mode.Dry? || a.mode.Done? {
      DryFares(input, base, a, end, trim);
      return;
    }
    Unfinished(input, base, a, g);
    var b, last := Current(input, g, bs);
    match a.mode
    case Type =>
      BetweenIs(input, base, a, g);
      TypeFares(input, base, a, b, last, end, trim);
    case Lens =>
      LensSo(input, base, a, g);
      BeginsIs(input, Finish(g.bs), a.last, 0);
      LensFares(input, base, a, b, last, end, trim);
    case Stored(_) =>
      PlainSo(input, base, a, g);
      PlainFares(input, base, a, g, b, last, end, trim);
    case Table =>
      TableSo(input, base, a, g);
      BeginsIs(input, Finish(g.bs), a.last, 2);
      TableFares(input, base, a, b, last, end, trim);
    case BTree(table, got) =>
      BTreeSo(input, base, a, g);
      BTreeFares(input, base, a, g, b, last, end, trim, table, got);
    case DTree(table, cl, got) =>
      DTreeSo(input, base, a, g);
      DTreeAlso(a, table, cl, got);
      DTreeFares(input, base, a, g, b, last, end, trim, table, cl, got);
    case InCodes(_, _, _) =>
      CodesFare(input, base, a, g, b, last, end, trim);
  }

  lemma DTreeAlso(a: AState, table: nat, cl: seq<nat>, got: seq<nat>)
    requires WF(a) && a.mode == DTree(table, cl, got)
    ensures DTreeWF(table, cl, got)
  {
  }

  lemma DryFares(input: seq<byte>, base: seq<byte>, a: AState, end: nat, trim: bool)
    requires |base| > 0 && WF(a) && (a.mode.Dry? || a.mode.Done?)
    ensures a.mode.Done? || Fares(input, base, a, end, trim)
  {
  }

  lemma BeginsIs(input: seq<byte>, p: nat, last: bool, kind: nat)
    requires Begins(input, p, last, kind)
    ensures Peek(input, p + 1, 2) == kind
  {
  }

  lemma Unfinished(input: seq<byte>, base: seq<byte>, a: AState, g: Progress)
    requires |base| > 0 && Good(input, base, a, g) && !a.mode.Dry? && !a.mode.Done?
    ensures Blocks(input, g.bs, false)
  {
    hide Blocks, Trimmed, Content, Finish, CodesGood, PlainGood, Begins, SentAt, CodeLens, Peek;
  }

  // ---- whole runs ----

  /** A run on a stream of blocks finds an error only if some block is not such as inflate takes. */
  lemma {:induction false} NeverFails(input: seq<byte>, base: seq<byte>, n: nat, bs: seq<Block>)
    requires |base| > 0 && Run(input, base, n).Some? && Blocks(input, bs, true)
    ensures var a := Run(input, base, n).value;
      && (a.mode.Bad? ==> !Trimmed(bs))
      && (a.mode.InCodes? ==> !a.mode.cm.BadCode?)
    decreases n
  {
    hide Good, Blocks, Trimmed, Step, WF, Fares, Finish, Narrow;
    if n > 0 {
      NeverFails(input, base, n - 1, bs);
      RunNarrow(input, base, n - 1);
      RunNarrow(input, base, n);
      var p := Run(input, base, n - 1).value;
      EndStops(input, base, p);
      var g := Follows(input, base, n - 1);
      AllFare(input, base, p, g, bs);
      FaresIs(input, base, p, Finish(bs), Trimmed(bs));
      var a := Run(input, base, n).value;
      if !a.mode.Bad? {
        var h := Follows(input, base, n);
        AllFare(input, base, a, h, bs);
      }
    }
  }

  lemma EndStops(input: seq<byte>, base: seq<byte>, a: AState)
    requires |base| > 0 && WF(a)
    ensures a.mode.Done? || a.mode.Bad? ==> Step(input, base, |input|, a) == None
  {
  }

  /**
   * Where a run on a stream of blocks stops, and the input does not end less than eight
   * bits after them, it has delivered exactly what the blocks stand for and stands
   * where they end, if they are such as inflate takes; otherwise it has found an error.
   */
  lemma DecodesBlocks(input: seq<byte>, base: seq<byte>, n: nat, bs: seq<Block>)
    requires |base| > 0 && Run(input, base, n).Some? && Step(input, base, |input|, Run(input, base, n).value).None?
    requires Blocks(input, bs, true) && Finish(bs) + 8 <= 8 * |input|
    ensures var a := Run(input, base, n).value;
      if Trimmed(bs) then a.mode.Done? && a.out == Content(base, bs) && a.bp == Finish(bs) else a.mode.Bad?
  {
    hide Good, Blocks, Trimmed, Step, Run, WF, Fares, Content, Finish, Narrow;
    NeverFails(input, base, n, bs);
    RunNarrow(input, base, n);
    var a := Run(input, base, n).value;
    if a.mode.Done? {
      var cs := DoneIsDecoded(input, base, n);
      OneDecoding(input, bs, cs);
    } else if !a.mode.Bad? {
      var g := Follows(input, base, n);
      AllFare(input, base, a, g, bs);
      FaresIs(input, base, a, Finish(bs), Trimmed(bs));
    }
  }

  // ---- an example: data stored as one block ----

  /** One stored block that holds s, and what follows it. */
  function StoredStream(s: seq<byte>, rest: seq<byte>): seq<byte>
    requires |s| <= 65535
  {
    var n, m := |s|, 65535 - |s|;
    [1, n % 256, n / 256, m % 256, m / 256] + s + rest
  }

  lemma TwoBytes(input: seq<byte>, i: nat)
    requires i + 1 < |input|
    ensures Peek(input, 8 * i, 16) == input[i] as nat + 256 * input[i + 1] as nat
  {
    hide Peek;
    PeekSplit(input, 8 * i, 8, 8);
    PeekByte(input, i);
    PeekByte(input, i + 1);
    ShlByte(input[i + 1]);
  }

  lemma FirstBits(input: seq<byte>)
    requires |input| > 0 && input[0] == 1
    ensures Peek(input, 0, 1) == 1 && Peek(input, 1, 2) == 0
  {
    hide Peek;
    PeekByte(input, 0);
    PeekSplit(input, 0, 3, 5);
    ThreeBits(input, 0);
    ShlThree(Peek(input, 3, 5));
  }

  lemma StoredBytes(s: seq<byte>, rest: seq<byte>)
    requires |s| <= 65535
    ensures var input := StoredStream(s, rest);
      && |input| >= 5 + |s| && input[5..5 + |s|] == s && input[0] == 1
      && Peek(input, 8, 16) == |s| && Peek(input, 24, 16) == 65535 - |s|
  {
    hide Peek;
    var input := StoredStream(s, rest);
    TwoBytes(input, 1);
    TwoBytes(input, 3);
  }

  lemma StoredEncoded(input: seq<byte>, s: seq<byte>)
    requires |input| >= 5 + |s| && input[5..5 + |s|] == s && Peek(input, 0, 1) == 1 && Peek(input, 1, 2) == 0
    requires Peek(input, 8, 16) == |s| && Peek(input, 24, 16) == 65535 - |s|
    ensures Encoded(input, Block(0, 40 + 8 * |s|, Plain(s)), true)
  {
    hide *;
    Bytes(8, |s|);
    AlignThree();
    PlainEncoded(input, Block(0, 40 + 8 * |s|, Plain(s)), 8, s, true);
  }

  lemma AlignThree()
    ensures AlignUp(3) == 8
  {
  }

  lemma PlainEncoded(input: seq<byte>, b: Block, p: nat, s: seq<byte>, last: bool)
    requires b.body == Plain(s) && p == AlignUp(b.start + 3) && p % 8 == 0 && b.end == p + 32 + 8 * |s| <= 8 * |input|
    requires Peek(input, b.start, 1) == (if last then 1 else 0) && Peek(input, b.start + 1, 2) == 0
    requires Peek(input, p, 16) == |s| && Peek(input, p + 16, 16) == 65535 - |s|
    requires p / 8 + 4 <= b.end / 8 <= |input| && input[p / 8 + 4..b.end / 8] == s
    ensures Encoded(input, b, last)
  {
    hide Peek, Coded, Header, AlignUp, FixedLit, FixedDist, Content, Finish;
  }

  /** Such a stream stands for s, so that inflating it gives s back. */
  lemma StoredIsBlocks(s: seq<byte>, rest: seq<byte>, base: seq<byte>)
    requires |s| <= 65535 && |base| > 0
    ensures var bs := [Block(0, 40 + 8 * |s|, Plain(s))];
      Blocks(StoredStream(s, rest), bs, true) && Content(base, bs) == s && Finish(bs) == 40 + 8 * |s|
  {
    hide Peek, Encoded, StoredStream;
    var input, b := StoredStream(s, rest), Block(0, 40 + 8 * |s|, Plain(s));
    StoredBytes(s, rest);
    FirstBits(input);
    StoredEncoded(input, s);
    BlocksMore(input, [], b, true);
    ContentMore(base, [], b);
    assert [] + [b] == [b];
  }
}
