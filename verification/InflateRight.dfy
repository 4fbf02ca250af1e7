/** What the machine delivers is what the blocks of the stream stand for. */
module InflateRight {
  import opened Arith
  import opened CanonicalCode
  import opened HuftSpec
  import opened CodeLengths
  import opened InflateTrees
  import opened TreeCallers
  import opened FixedTrees
  import opened Stream
  import opened InflateSpec
  import opened DeflateFormat
  import opened SymbolRead
  import Lz77
  import OutputWindow

  /** The blocks that are finished, and of the current one the lengths, where its codes begin, and the tokens so far. */
  datatype Progress = Progress(bs: seq<Block>, ll: seq<nat>, dl: seq<nat>, m: nat, first: nat, toks: seq<Lz77.Token>)

  /** The trees are those of these lengths; without a distance tree no length symbol can occur. */
  ghost predicate TreesOf(lt: Tree, dt: Option<Tree>, ll: seq<nat>, dl: seq<nat>) {
    TreesWF(lt, dt) && lt.b == ll && (dt.Some? ==> dt.value.b == dl)
  }

  /** The three bits that begin a block: its flag and its kind. */
  ghost predicate Begins(input: seq<byte>, p: nat, last: bool, kind: nat) {
    Peek(input, p, 1) == (if last then 1 else 0) && Peek(input, p + 1, 2) == kind
  }

  /** The current block has these lengths. */
  ghost predicate Opened(input: seq<byte>, g: Progress, last: bool) {
    var p := Finish(g.bs);
    || (Begins(input, p, last, 1) && g.ll == FixedLit() && g.dl == FixedDist() && g.first == p + 3)
    || (Begins(input, p, last, 2) && Header(input, p + 3, g.ll, g.dl, g.m, g.first) && TrimmedPair(g.ll, g.dl))
  }

  /** The tokens so far are those that the block begins with. */
  ghost predicate Counted(input: seq<byte>, g: Progress) {
    TokensAt(input, g.first, g.ll, g.dl, |g.toks|).Tokens?
    && TokensAt(input, g.first, g.ll, g.dl, |g.toks|).toks == g.toks
  }

  /** Where they end. */
  ghost function Here(input: seq<byte>, g: Progress): nat {
    var r := TokensAt(input, g.first, g.ll, g.dl, |g.toks|);
    if r.Tokens? then r.end else 0
  }

  ghost function Next(input: seq<byte>, g: Progress): Piece { PieceAt(input, Here(input, g), g.ll, g.dl) }

  function OutSoFar(base: seq<byte>, g: Progress): seq<byte>
    requires |base| > 0
  {
    PutAll(base, Content(base, g.bs), g.toks)
  }

  /** How far within a token the machine is. */
  ghost predicate Within(input: seq<byte>, base: seq<byte>, cm: CodeMode, lt: Tree, dt: Option<Tree>, bp: nat,
                         out: seq<byte>, r: nat, piece: Piece, sofar: seq<byte>, dl: seq<nat>)
    requires |base| > 0 && lt.Ok() && (dt.Some? ==> dt.value.Ok())
  {
    match cm
    case Start => bp == r && out == sofar
    case Len(w, need) => w <= bp && bp - w == r && out == sofar && w < LenAt(lt.Job().c, Ahead(input, r))
    case LenExt(len, get) => out == sofar && piece == DistanceAt(input, bp + get, len + Peek(input, bp, get), dl)
    case Dist(len, w, need) =>
      && w <= bp && dt.Some? && out == sofar
      && piece == DistanceAt(input, bp - w, len, dl) && w < LenAt(dt.value.Job().c, Ahead(input, bp - w))
    case DistExt(len, dist, get) =>
      out == sofar && piece == Piece(Lz77.Match(dist + Peek(input, bp, get), len), bp + get)
    case Copy(len, dist) =>
      && piece.Piece? && piece.t.Match? && piece.t.dist == dist > 0 && len <= piece.t.len && piece.end == bp
      && out == OutputWindow.Extend(base, sofar, dist, piece.t.len - len)
    case Lit(c) => out == sofar && piece == Piece(Lz77.Literal(c), bp)
    case Wash => out == sofar && piece == EndBlock(bp)
    case End => out == sofar && piece == EndBlock(bp)
    case BadCode => piece == NoPiece
  }

  ghost predicate CodesGood(input: seq<byte>, base: seq<byte>, a: AState, g: Progress)
    requires |base| > 0 && a.mode.InCodes?
  {
    && Opened(input, g, a.last) && Counted(input, g) && TreesOf(a.mode.lt, a.mode.dt, g.ll, g.dl)
    && Within(input, base, a.mode.cm, a.mode.lt, a.mode.dt, a.bp, a.out, Here(input, g), Next(input, g),
              OutSoFar(base, g), g.dl)
  }

  /** Within a stored block: its length stands before its bytes. */
  ghost predicate PlainGood(input: seq<byte>, base: seq<byte>, a: AState, g: Progress, left: nat)
    requires |base| > 0
  {
    var p := AlignUp(Finish(g.bs) + 3);
    var n := Peek(input, p, 16);
    && Begins(input, Finish(g.bs), a.last, 0) && p % 8 == 0 && Peek(input, p + 16, 16) == 65535 - n
    && left <= n && a.bp == p + 32 + 8 * (n - left) && a.bp <= 8 * |input|
    && a.out == Content(base, g.bs) + input[p / 8 + 4..a.bp / 8]
  }

  /** The blocks are those of the stream, and such as inflate takes. */
  ghost predicate Understood(input: seq<byte>, bs: seq<Block>, done: bool) {
    Blocks(input, bs, done) && Trimmed(bs)
  }

  lemma UnderstoodMore(input: seq<byte>, bs: seq<Block>, b: Block, done: bool)
    requires Understood(input, bs, false) && b.start == Finish(bs) && Encoded(input, b, done) && TrimmedBody(b.body)
    ensures Understood(input, bs + [b], done) && Finish(bs + [b]) == b.end
  {
    hide Encoded, Blocks, TrimmedBody;
    BlocksMore(input, bs, b, done);
  }

  /** The state is where the stream has been understood so far. */
  ghost predicate Good(input: seq<byte>, base: seq<byte>, a: AState, g: Progress)
    requires |base| > 0
  {
    var p := Finish(g.bs);
    && a.bp <= 8 * |input|
    && Understood(input, g.bs, a.mode.Dry? || a.mode.Done?)
    && match a.mode
       case Type => a.bp == p && a.out == Content(base, g.bs)
       case Lens => Begins(input, p, a.last, 0) && a.bp == AlignUp(p + 3) && a.out == Content(base, g.bs)
       case Stored(left) => PlainGood(input, base, a, g, left)
       case Table => Begins(input, p, a.last, 2) && a.bp == p + 3 && a.out == Content(base, g.bs)
       case BTree(table, got) =>
         && Begins(input, p, a.last, 2) && table == Peek(input, p + 3, 14) && a.out == Content(base, g.bs)
         && a.bp == p + 17 + 3 * |got| && forall i | 0 <= i < |got| :: got[i] == Peek(input, p + 17 + 3 * i, 3)
       case DTree(table, cl, got) =>
         && Begins(input, p, a.last, 2) && table == Peek(input, p + 3, 14) && a.out == Content(base, g.bs)
         && cl == CodeLens(input, p + 17, LenCodes(table)) && |cl| == 19
         && SentAt(input, p + 17 + 3 * LenCodes(table), cl, g.m) == Sent(got, a.bp)
       case InCodes(_, _, _) => CodesGood(input, base, a, g)
       case Dry => a.bp == p && a.out == Content(base, g.bs)
       case Done => a.bp == p && a.out == Content(base, g.bs)
       case Bad => true
  }

  // ---- codes ----

  lemma PieceCases(input: seq<byte>, r: nat, ll: seq<nat>, dl: seq<nat>, y: int)
    requires y == Symbol(ll, Peek(input, r, 15))
    ensures y < 0 ==> PieceAt(input, r, ll, dl) == NoPiece
    ensures 0 <= y < 256 ==> PieceAt(input, r, ll, dl) == Piece(Lz77.Literal(y), r + ll[y])
    ensures y == 256 ==> PieceAt(input, r, ll, dl) == EndBlock(r + ll[y])
    ensures y > 256 ==> PieceAt(input, r, ll, dl) == MatchAt(input, r + ll[y], y - 257, dl)
  {
    hide Symbol, Peek, MatchAt, StartsWith, CPLENS, CPLEXT, CPDIST, CPDEXT;
  }

  lemma LenStands(lt: Tree, dt: Option<Tree>, y: int)
    requires TreesWF(lt, dt) && y < |lt.b|
    ensures y <= 287 && lt.Ok()
    ensures y < 0 ==> Stands(lt, y) == Invalid
    ensures 0 <= y < 256 ==> Stands(lt, y) == Literal(y)
    ensures y == 256 ==> Stands(lt, y) == EndOfBlock
    ensures y > 256 ==> Stands(lt, y) == if y - 257 >= 29 then Invalid else Extra(CPLENS[y - 257], CPLEXT[y - 257])
  {
    hide Tree.Ok, CPLENS, CPLEXT, Root;
    LengthEnds();
    ProperTree(lt);
  }

  /** What a literal/length symbol stands for is the piece that comes next. */
  lemma PieceIs(input: seq<byte>, r: nat, lt: Tree, dt: Option<Tree>, ll: seq<nat>, dl: seq<nat>)
    requires TreesOf(lt, dt, ll, dl)
    ensures lt.Ok()
    ensures var q, piece := r + CodeBits(lt, input, r), PieceAt(input, r, ll, dl);
      match Stands(lt, NextSym(lt, input, r))
      case Literal(c) => piece == Piece(Lz77.Literal(c), q)
      case EndOfBlock => piece == EndBlock(q)
      case Extra(b, get) => piece == DistanceAt(input, q + get, b + Peek(input, q, get), dl)
      case Invalid => piece == NoPiece
  {
    hide LenAt, Ahead, Peek, Symbol, StartsWith, DistanceAt, PieceAt, MatchAt, Tree.Ok, TreesWF, CPLENS, CPLEXT,
      IndexAt, TreeSym, Stands, CountsOf, Over, Order, Off, Fill, Width, Pow2, LitTree, DistTree, FixedLit, FixedDist;
    TreesFacts(lt, dt);
    StandsFor(lt, input, r);
    var y := NextSym(lt, input, r);
    LenStands(lt, dt, y);
    PieceCases(input, r, ll, dl, y);
    if y > 256 {
      MatchIs(input, r + ll[y], y - 257, dl);
    }
  }

  /** The decoder's tables say what a length symbol stands for. */
  lemma MatchIs(input: seq<byte>, p: nat, i: nat, dl: seq<nat>)
    ensures |CPLENS| == |CPLEXT| == 31
    ensures i >= 29 ==> MatchAt(input, p, i, dl) == NoPiece
    ensures i < 29 ==>
      MatchAt(input, p, i, dl) == DistanceAt(input, p + CPLEXT[i], CPLENS[i] + Peek(input, p, CPLEXT[i]), dl)
  {
    hide Peek, DistanceAt, CPLENS, CPLEXT;
    LengthEnds();
  }

  lemma LengthEnds()
    ensures |CPLENS| == |CPLEXT| == 31 && CPLEXT[29] == 112 && CPLEXT[30] == 112
    ensures forall i | 0 <= i < 29 :: CPLEXT[i] <= 5
  {
  }

  lemma ProperTree(t: Tree)
    requires t.Ok()
    ensures |t.b| > t.s ==> |t.b| - t.s <= |t.d| && |t.b| - t.s <= |t.e|
  {
  }

  lemma DistanceCases(input: seq<byte>, p: nat, len: nat, dl: seq<nat>, z: int)
    requires z == Symbol(dl, Peek(input, p, 15))
    ensures z < 0 || z >= 30 ==> DistanceAt(input, p, len, dl) == NoPiece
    ensures 0 <= z < 30 ==>
      DistanceAt(input, p, len, dl) == Piece(Lz77.Match(CPDIST[z] + Peek(input, p + dl[z], CPDEXT[z]), len),
                                             p + dl[z] + CPDEXT[z])
  {
    hide Symbol, StartsWith, Peek, CPDIST, CPDEXT;
    DistanceTable();
  }

  lemma DistStands(lt: Tree, dt: Option<Tree>, z: int)
    requires TreesWF(lt, dt) && dt.Some? && z < |dt.value.b|
    ensures z < 30 && dt.value.Ok()
    ensures Stands(dt.value, z) == if z < 0 then Invalid else Extra(CPDIST[z], CPDEXT[z])
    ensures z >= 0 ==> CPDIST[z] > 0
  {
    hide Tree.Ok, CPDIST, CPDEXT, Root;
    DistanceTable();
    ProperTree(dt.value);
  }

  /** ... and a distance symbol completes it. */
  lemma DistanceIs(input: seq<byte>, p: nat, len: nat, lt: Tree, dt: Option<Tree>, ll: seq<nat>, dl: seq<nat>)
    requires TreesOf(lt, dt, ll, dl) && dt.Some?
    ensures dt.value.Ok()
    ensures var q, piece := p + CodeBits(dt.value, input, p), DistanceAt(input, p, len, dl);
      match Stands(dt.value, NextSym(dt.value, input, p))
      case Extra(b, get) => piece == Piece(Lz77.Match(b + Peek(input, q, get), len), q + get) && b > 0
      case _ => piece == NoPiece
  {
    hide LenAt, Ahead, Peek, Symbol, StartsWith, DistanceAt, Tree.Ok, TreesWF, CPDIST, CPDEXT, IndexAt, TreeSym, Stands;
    TreesFacts(lt, dt);
    StandsFor(dt.value, input, p);
    var z := NextSym(dt.value, input, p);
    DistStands(lt, dt, z);
    DistanceCases(input, p, len, dl, z);
  }

  lemma AfterLenWithin(input: seq<byte>, base: seq<byte>, lt: Tree, dt: Option<Tree>, q: nat, out: seq<byte>, r: nat,
                       piece: Piece, dl: seq<nat>, m: Sym)
    requires |base| > 0 && lt.Ok() && (dt.Some? ==> dt.value.Ok())
    requires match m
      case Literal(c) => piece == Piece(Lz77.Literal(c), q)
      case EndOfBlock => piece == EndBlock(q)
      case Extra(b, get) => piece == DistanceAt(input, q + get, b + Peek(input, q, get), dl)
      case Invalid => piece == NoPiece
    ensures Within(input, base, AfterLen(m), lt, dt, q, out, r, piece, out, dl)
  {
    hide Peek, DistanceAt, Tree.Ok, LenAt, Ahead;
  }

  lemma AfterDistWithin(input: seq<byte>, base: seq<byte>, lt: Tree, dt: Option<Tree>, q: nat, out: seq<byte>, r: nat,
                        piece: Piece, dl: seq<nat>, m: Sym, len: nat)
    requires |base| > 0 && lt.Ok() && (dt.Some? ==> dt.value.Ok())
    requires match m
      case Extra(b, get) => piece == Piece(Lz77.Match(b + Peek(input, q, get), len), q + get)
      case _ => piece == NoPiece
    ensures Within(input, base, AfterDist(m, len), lt, dt, q, out, r, piece, out, dl)
  {
    hide Peek, DistanceAt, Tree.Ok, LenAt, Ahead;
  }

  lemma LenWithin(input: seq<byte>, base: seq<byte>, lt: Tree, dt: Option<Tree>, w: nat, need: nat, bp: nat,
                  out: seq<byte>, r: nat, piece: Piece, sofar: seq<byte>, dl: seq<nat>)
    requires |base| > 0 && lt.Ok() && (dt.Some? ==> dt.value.Ok())
    ensures Within(input, base, Len(w, need), lt, dt, bp, out, r, piece, sofar, dl)
      <==> w <= bp && bp - w == r && out == sofar && w < LenAt(lt.Job().c, Ahead(input, r))
  {
    hide Peek, DistanceAt, Tree.Ok, LenAt, Ahead;
  }

  lemma DistWithin(input: seq<byte>, base: seq<byte>, lt: Tree, dt: Option<Tree>, len: nat, w: nat, need: nat, bp: nat,
                   out: seq<byte>, r: nat, piece: Piece, sofar: seq<byte>, dl: seq<nat>)
    requires |base| > 0 && lt.Ok() && (dt.Some? ==> dt.value.Ok())
    ensures Within(input, base, Dist(len, w, need), lt, dt, bp, out, r, piece, sofar, dl)
      <==> w <= bp && dt.Some? && out == sofar
           && piece == DistanceAt(input, bp - w, len, dl) && w < LenAt(dt.value.Job().c, Ahead(input, bp - w))
  {
    hide Peek, DistanceAt, Tree.Ok, LenAt, Ahead;
  }

  lemma LenBound(lt: Tree, dt: Option<Tree>, cm: CodeMode, bp: nat)
    requires CodesWF(lt, dt, cm, bp)
    ensures cm.Len? || cm.Dist? ==> cm.w <= bp && cm.w + cm.need <= 15
  {
    hide TreesWF;
  }

  /** A step within a token stays within it. */
  lemma WithinLen(input: seq<byte>, base: seq<byte>, a: AState, lt: Tree, dt: Option<Tree>, w: nat, need: nat, r: nat,
                  sofar: seq<byte>, ll: seq<nat>, dl: seq<nat>, b: AState)
    requires |base| > 0 && CodesWF(lt, dt, Len(w, need), a.bp) && TreesOf(lt, dt, ll, dl) && a.bp <= 8 * |input|
    requires lt.Ok() && (dt.Some? ==> dt.value.Ok())
    requires Within(input, base, Len(w, need), lt, dt, a.bp, a.out, r, PieceAt(input, r, ll, dl), sofar, dl)
    requires LenStep(input, |input|, a, lt, dt, w, need) == Some(b)
    ensures b.mode.InCodes? && b == a.(bp := b.bp, mode := InCodes(lt, dt, b.mode.cm)) && b.bp <= 8 * |input|
    ensures Within(input, base, b.mode.cm, lt, dt, b.bp, b.out, r, PieceAt(input, r, ll, dl), sofar, dl)
  {
    hide *;
    var piece := PieceAt(input, r, ll, dl);
    LenBound(lt, dt, Len(w, need), a.bp);
    LenWithin(input, base, lt, dt, w, need, a.bp, a.out, r, piece, sofar, dl);
    CodeBitsIs(lt, input, r);
    LenLooks(input, a, lt, dt, w, need, r);
    Looks(lt, input, a.bp, w, need, r);
    HasIs(a.bp, need, |input|);
    if CodeBits(lt, input, r) <= w + need {
      PieceIs(input, r, lt, dt, ll, dl);
      AfterLenWithin(input, base, lt, dt, b.bp, b.out, r, piece, dl, Stands(lt, NextSym(lt, input, r)));
    } else {
      LenWithin(input, base, lt, dt, w + need, b.mode.cm.need, b.bp, b.out, r, piece, sofar, dl);
    }
  }

  lemma WithinDist(input: seq<byte>, base: seq<byte>, a: AState, lt: Tree, dt: Option<Tree>, len: nat, w: nat,
                   need: nat, r: nat, piece: Piece, sofar: seq<byte>, ll: seq<nat>, dl: seq<nat>, b: AState)
    requires |base| > 0 && CodesWF(lt, dt, Dist(len, w, need), a.bp) && TreesOf(lt, dt, ll, dl) && a.bp <= 8 * |input|
    requires lt.Ok() && dt.Some? && dt.value.Ok()
    requires Within(input, base, Dist(len, w, need), lt, dt, a.bp, a.out, r, piece, sofar, dl)
    requires DistStep(input, |input|, a, lt, dt, len, w, need) == Some(b)
    ensures b.mode.InCodes? && b == a.(bp := b.bp, mode := InCodes(lt, dt, b.mode.cm)) && b.bp <= 8 * |input|
    ensures Within(input, base, b.mode.cm, lt, dt, b.bp, b.out, r, piece, sofar, dl)
  {
    hide *;
    LenBound(lt, dt, Dist(len, w, need), a.bp);
    DistWithin(input, base, lt, dt, len, w, need, a.bp, a.out, r, piece, sofar, dl);
    var t, p := dt.value, a.bp - w;
    CodeBitsIs(t, input, p);
    DistLooks(input, a, lt, dt, len, w, need, p);
    Looks(t, input, a.bp, w, need, p);
    HasIs(a.bp, need, |input|);
    if CodeBits(t, input, p) <= w + need {
      DistanceIs(input, p, len, lt, dt, ll, dl);
      AfterDistWithin(input, base, lt, dt, b.bp, b.out, r, piece, dl, Stands(t, NextSym(t, input, p)), len);
    } else {
      DistWithin(input, base, lt, dt, len, w + need, b.mode.cm.need, b.bp, b.out, r, piece, sofar, dl);
    }
  }

  /** The other steps within a token. */
  lemma WithinFirst(input: seq<byte>, base: seq<byte>, a: AState, lt: Tree, dt: Option<Tree>, r: nat, piece: Piece,
                    sofar: seq<byte>, dl: seq<nat>, b: AState)
    requires |base| > 0 && CodesWF(lt, dt, Start, a.bp) && a.bp <= 8 * |input| && lt.Ok()
    requires dt.Some? ==> dt.value.Ok()
    requires Within(input, base, Start, lt, dt, a.bp, a.out, r, piece, sofar, dl)
    requires CodesStep(input, base, |input|, a, lt, dt, Start) == Some(b)
    ensures b.mode.InCodes? && b == a.(bp := b.bp, mode := InCodes(lt, dt, b.mode.cm)) && b.bp <= 8 * |input|
    ensures Within(input, base, b.mode.cm, lt, dt, b.bp, b.out, r, piece, sofar, dl)
  {
    hide LenAt, Ahead, Peek, PieceAt, DistanceAt, Tree.Ok, TreesWF, OutputWindow.Extend, OutputWindow.HistByte, Root,
      LenStep, DistStep, Pow2;
    LenAtPositive(lt.Job().c, Ahead(input, r));
  }

  lemma WithinLenExt(input: seq<byte>, base: seq<byte>, a: AState, lt: Tree, dt: Option<Tree>, len: nat, get: nat,
                     r: nat, piece: Piece, sofar: seq<byte>, dl: seq<nat>, b: AState)
    requires |base| > 0 && CodesWF(lt, dt, LenExt(len, get), a.bp) && a.bp <= 8 * |input| && lt.Ok()
    requires dt.Some? ==> dt.value.Ok()
    requires Within(input, base, LenExt(len, get), lt, dt, a.bp, a.out, r, piece, sofar, dl)
    requires CodesStep(input, base, |input|, a, lt, dt, LenExt(len, get)) == Some(b)
    ensures b.mode.InCodes? && b == a.(bp := b.bp, mode := InCodes(lt, dt, b.mode.cm)) && b.bp <= 8 * |input|
    ensures Within(input, base, b.mode.cm, lt, dt, b.bp, b.out, r, piece, sofar, dl)
  {
    hide LenAt, Ahead, Peek, PieceAt, DistanceAt, Tree.Ok, TreesWF, OutputWindow.Extend, OutputWindow.HistByte, Root,
      LenStep, DistStep, Pow2, CountsOf, Over, Order, Off, Fill, Width;
    LenAtPositive(dt.value.Job().c, Ahead(input, b.bp));
  }

  lemma WithinDistExt(input: seq<byte>, base: seq<byte>, a: AState, lt: Tree, dt: Option<Tree>, len: nat, dist: nat,
                      get: nat, r: nat, piece: Piece, sofar: seq<byte>, dl: seq<nat>, b: AState)
    requires |base| > 0 && CodesWF(lt, dt, DistExt(len, dist, get), a.bp) && a.bp <= 8 * |input| && lt.Ok()
    requires dt.Some? ==> dt.value.Ok()
    requires Within(input, base, DistExt(len, dist, get), lt, dt, a.bp, a.out, r, piece, sofar, dl)
    requires CodesStep(input, base, |input|, a, lt, dt, DistExt(len, dist, get)) == Some(b)
    ensures b.mode.InCodes? && b == a.(bp := b.bp, mode := InCodes(lt, dt, b.mode.cm)) && b.bp <= 8 * |input|
    ensures Within(input, base, b.mode.cm, lt, dt, b.bp, b.out, r, piece, sofar, dl)
  {
    hide LenAt, Ahead, Peek, PieceAt, DistanceAt, Tree.Ok, TreesWF, OutputWindow.Extend, OutputWindow.HistByte, Root,
      LenStep, DistStep, Pow2;
    OutputWindow.ExtendNone(base, sofar, dist + Peek(input, a.bp, get));
  }

  lemma WithinWash(input: seq<byte>, base: seq<byte>, a: AState, lt: Tree, dt: Option<Tree>, r: nat, piece: Piece,
                   sofar: seq<byte>, dl: seq<nat>, b: AState)
    requires |base| > 0 && CodesWF(lt, dt, Wash, a.bp) && a.bp <= 8 * |input| && lt.Ok() && (dt.Some? ==> dt.value.Ok())
    requires Within(input, base, Wash, lt, dt, a.bp, a.out, r, piece, sofar, dl)
    requires CodesStep(input, base, |input|, a, lt, dt, Wash) == Some(b)
    ensures b.mode.InCodes? && b == a.(bp := b.bp, mode := InCodes(lt, dt, b.mode.cm)) && b.bp <= 8 * |input|
    ensures Within(input, base, b.mode.cm, lt, dt, b.bp, b.out, r, piece, sofar, dl)
  {
    hide LenAt, Ahead, Peek, PieceAt, DistanceAt, Tree.Ok, TreesWF, OutputWindow.Extend, OutputWindow.HistByte, Root,
      LenStep, DistStep, Pow2;
  }

  lemma WithinCopy(input: seq<byte>, base: seq<byte>, a: AState, lt: Tree, dt: Option<Tree>, len: nat, dist: nat,
                   r: nat, piece: Piece, sofar: seq<byte>, dl: seq<nat>, b: AState)
    requires |base| > 0 && CodesWF(lt, dt, Copy(len, dist), a.bp) && len > 0 && lt.Ok() && (dt.Some? ==> dt.value.Ok())
    requires Within(input, base, Copy(len, dist), lt, dt, a.bp, a.out, r, piece, sofar, dl)
    requires CodesStep(input, base, |input|, a, lt, dt, Copy(len, dist)) == Some(b)
    ensures b == a.(out := b.out, mode := InCodes(lt, dt, Copy(len - 1, dist)))
    ensures Within(input, base, Copy(len - 1, dist), lt, dt, b.bp, b.out, r, piece, sofar, dl)
  {
    hide LenAt, Ahead, Peek, PieceAt, DistanceAt, Tree.Ok, TreesWF, OutputWindow.Extend, OutputWindow.HistByte, LenStep,
      DistStep;
    OutputWindow.ExtendOne(base, sofar, dist, piece.t.len - len);
  }

  /** A token is complete. */
  lemma TokenDone(input: seq<byte>, base: seq<byte>, g: Progress, t: Lz77.Token, q: nat)
    requires |base| > 0 && Counted(input, g) && Next(input, g) == Piece(t, q)
    ensures Counted(input, g.(toks := g.toks + [t])) && Here(input, g.(toks := g.toks + [t])) == q
    ensures OutSoFar(base, g.(toks := g.toks + [t])) == Put(base, OutSoFar(base, g), t)
  {
    hide PieceAt, Put;
    PutMore(base, Content(base, g.bs), g.toks, t);
    var n := |g.toks|;
    assert TokensAt(input, g.first, g.ll, g.dl, n + 1)
        == match PieceAt(input, Here(input, g), g.ll, g.dl)
           case Piece(u, r) => Tokens(g.toks + [u], r)
           case _ => NoTokens;
  }

  /** The facts that a state within a block gives. */
  lemma CodesFacts(input: seq<byte>, base: seq<byte>, a: AState, g: Progress)
    requires |base| > 0 && a.mode.InCodes? && WF(a) && Good(input, base, a, g)
    ensures Opened(input, g, a.last) && Counted(input, g) && TreesOf(a.mode.lt, a.mode.dt, g.ll, g.dl)
    ensures Understood(input, g.bs, false)
    ensures a.mode.lt.Ok() && (a.mode.dt.Some? ==> a.mode.dt.value.Ok()) && a.bp <= 8 * |input|
    ensures CodesWF(a.mode.lt, a.mode.dt, a.mode.cm, a.bp)
    ensures Within(input, base, a.mode.cm, a.mode.lt, a.mode.dt, a.bp, a.out, Here(input, g), Next(input, g),
                   OutSoFar(base, g), g.dl)
  {
    hide Opened, Counted, Within, Understood, TreesWF, Tree.Ok, Here, OutSoFar;
    TreesFacts(a.mode.lt, a.mode.dt);
  }

  lemma CodesSo(input: seq<byte>, base: seq<byte>, a: AState, g: Progress)
    requires |base| > 0 && a.mode.InCodes? && a.mode.lt.Ok() && (a.mode.dt.Some? ==> a.mode.dt.value.Ok())
    requires Opened(input, g, a.last) && Counted(input, g) && TreesOf(a.mode.lt, a.mode.dt, g.ll, g.dl)
    requires Understood(input, g.bs, false)
    requires Within(input, base, a.mode.cm, a.mode.lt, a.mode.dt, a.bp, a.out, Here(input, g), Next(input, g),
                    OutSoFar(base, g), g.dl)
    requires a.bp <= 8 * |input|
    ensures Good(input, base, a, g)
  {
    hide Opened, Counted, Within, Understood, TreesWF, Tree.Ok, Here, OutSoFar;
  }

  /** A step that completes a token. */
  lemma WithinToken(input: seq<byte>, base: seq<byte>, a: AState, lt: Tree, dt: Option<Tree>, cm: CodeMode, r: nat,
                    piece: Piece, sofar: seq<byte>, dl: seq<nat>, b: AState)
    requires |base| > 0 && CodesWF(lt, dt, cm, a.bp) && lt.Ok() && (dt.Some? ==> dt.value.Ok())
    requires Within(input, base, cm, lt, dt, a.bp, a.out, r, piece, sofar, dl)
    requires CodesStep(input, base, |input|, a, lt, dt, cm) == Some(b)
    requires cm.Lit? || (cm.Copy? && cm.len == 0)
    ensures piece.Piece? && piece.end == a.bp
    ensures b == a.(out := Put(base, sofar, piece.t), mode := InCodes(lt, dt, Start))
  {
    hide LenAt, Ahead, Peek, PieceAt, DistanceAt, Tree.Ok, TreesWF, OutputWindow.Extend, OutputWindow.HistByte, LenStep,
      DistStep;
  }

  lemma WithinStart(input: seq<byte>, base: seq<byte>, lt: Tree, dt: Option<Tree>, bp: nat, out: seq<byte>,
                    piece: Piece, dl: seq<nat>)
    requires |base| > 0 && lt.Ok() && (dt.Some? ==> dt.value.Ok())
    ensures Within(input, base, Start, lt, dt, bp, out, bp, piece, out, dl)
  {
  }

  lemma WithinEnd(input: seq<byte>, base: seq<byte>, lt: Tree, dt: Option<Tree>, bp: nat, out: seq<byte>, r: nat,
                  piece: Piece, sofar: seq<byte>, dl: seq<nat>)
    requires |base| > 0 && lt.Ok() && (dt.Some? ==> dt.value.Ok())
    requires Within(input, base, End, lt, dt, bp, out, r, piece, sofar, dl)
    ensures out == sofar && piece == EndBlock(bp)
  {
  }

  /** The body of the block that is being decoded. */
  function BodyOf(g: Progress, fixed: bool): Body {
    if fixed then Fixed(g.toks) else Dynamic(g.ll, g.dl, g.m, g.first, g.toks)
  }

  /** The block is complete. */
  lemma BlockDone(input: seq<byte>, base: seq<byte>, g: Progress, last: bool, q: nat) returns (b: Block)
    requires |base| > 0 && Opened(input, g, last) && Counted(input, g) && Next(input, g) == EndBlock(q)
    requires q <= 8 * |input|
    ensures b.start == Finish(g.bs) && b.end == q && Encoded(input, b, last) && TrimmedBody(b.body)
    ensures Add(base, Content(base, g.bs), b.body) == OutSoFar(base, g)
  {
    hide Peek, PieceAt, Header, TokensAt, PutAll, Content, FixedLit, FixedDist;
    var p := Finish(g.bs);
    b := Block(p, q,
               BodyOf(g, Begins(input, p, last, 1) && g.ll == FixedLit() && g.dl == FixedDist() && g.first == p + 3));
  }

  lemma StepCodes(input: seq<byte>, base: seq<byte>, a: AState)
    requires |base| > 0 && WF(a) && a.mode.InCodes?
    ensures CodesWF(a.mode.lt, a.mode.dt, a.mode.cm, a.bp)
    ensures Step(input, base, |input|, a) == CodesStep(input, base, |input|, a, a.mode.lt, a.mode.dt, a.mode.cm)
  {
    hide CodesWF, CodesStep;
  }

  lemma CodesCases(input: seq<byte>, base: seq<byte>, a: AState, lt: Tree, dt: Option<Tree>, cm: CodeMode)
    requires |base| > 0 && CodesWF(lt, dt, cm, a.bp)
    ensures cm.Len? ==>
      CodesStep(input, base, |input|, a, lt, dt, cm) == LenStep(input, |input|, a, lt, dt, cm.w, cm.need)
    ensures cm.Dist? ==>
      dt.Some? && CodesStep(input, base, |input|, a, lt, dt, cm)
        == DistStep(input, |input|, a, lt, dt, cm.len, cm.w, cm.need)
    ensures cm.End? ==> CodesStep(input, base, |input|, a, lt, dt, cm) == Some(a.(mode := if a.last then Dry else Type))
    ensures cm.BadCode? ==> CodesStep(input, base, |input|, a, lt, dt, cm) == None
  {
    hide LenStep, DistStep, TreesWF;
  }

  lemma CodesKeep(input: seq<byte>, base: seq<byte>, a: AState, g: Progress, b: AState) returns (g': Progress)
    requires |base| > 0 && WF(a) && a.mode.InCodes? && Good(input, base, a, g)
    requires Step(input, base, |input|, a) == Some(b)
    ensures Good(input, base, b, g')
  {
    hide Good, WF, Step, CodesStep, Opened, Counted, Within, Understood, TreesOf, TreesWF, Tree.Ok, Here, Next,
      OutSoFar, LenStep, DistStep, CodesWF, Put;
    CodesFacts(input, base, a, g);
    StepCodes(input, base, a);
    var lt, dt, cm := a.mode.lt, a.mode.dt, a.mode.cm;
    CodesCases(input, base, a, lt, dt, cm);
    var r, piece, sofar := Here(input, g), Next(input, g), OutSoFar(base, g);
    NextIs(input, g);
    g' := g;
    if cm.Lit? || (cm.Copy? && cm.len == 0) {
      WithinToken(input, base, a, lt, dt, cm, r, piece, sofar, g.dl, b);
      g' := g.(toks := g.toks + [piece.t]);
      TokenDone(input, base, g, piece.t, piece.end);
      WithinStart(input, base, lt, dt, b.bp, b.out, Next(input, g'), g.dl);
      OpenedToks(input, g, g', a.last);
      CodesSo(input, base, b, g');
    } else if cm.End? {
      WithinEnd(input, base, lt, dt, a.bp, a.out, r, piece, sofar, g.dl);
      var x := BlockDone(input, base, g, a.last, a.bp);
      UnderstoodMore(input, g.bs, x, a.last);
      ContentMore(base, g.bs, x);
      g' := g.(bs := g.bs + [x]);
      BetweenSo(input, base, b, g');
    } else {
      if cm.Len? {
        WithinLen(input, base, a, lt, dt, cm.w, cm.need, r, sofar, g.ll, g.dl, b);
      } else if cm.Dist? {
        WithinDist(input, base, a, lt, dt, cm.len, cm.w, cm.need, r, piece, sofar, g.ll, g.dl, b);
      } else if cm.Copy? {
        WithinCopy(input, base, a, lt, dt, cm.len, cm.dist, r, piece, sofar, g.dl, b);
      } else if cm.Start? {
        WithinFirst(input, base, a, lt, dt, r, piece, sofar, g.dl, b);
      } else if cm.LenExt? {
        WithinLenExt(input, base, a, lt, dt, cm.len, cm.get, r, piece, sofar, g.dl, b);
      } else if cm.DistExt? {
        WithinDistExt(input, base, a, lt, dt, cm.len, cm.dist, cm.get, r, piece, sofar, g.dl, b);
      } else {
        WithinWash(input, base, a, lt, dt, r, piece, sofar, g.dl, b);
      }
      CodesSo(input, base, b, g);
    }
  }

  lemma NextIs(input: seq<byte>, g: Progress)
    ensures Next(input, g) == PieceAt(input, Here(input, g), g.ll, g.dl)
  {
  }

  lemma OpenedToks(input: seq<byte>, g: Progress, g': Progress, last: bool)
    requires Opened(input, g, last) && g' == g.(toks := g'.toks)
    ensures Opened(input, g', last)
  {
    hide Header;
  }

  /** Between blocks and at the end. */
  lemma BetweenSo(input: seq<byte>, base: seq<byte>, a: AState, g: Progress)
    requires |base| > 0 && (a.mode.Type? || a.mode.Dry? || a.mode.Done?) && a.bp == Finish(g.bs) && a.bp <= 8 * |input|
    requires Understood(input, g.bs, !a.mode.Type?) && a.out == Content(base, g.bs)
    ensures Good(input, base, a, g)
  {
    hide *;
    BetweenIs(input, base, a, g);
  }

  lemma BetweenIs(input: seq<byte>, base: seq<byte>, a: AState, g: Progress)
    requires |base| > 0 && (a.mode.Type? || a.mode.Dry? || a.mode.Done?)
    ensures Good(input, base, a, g) <==>
      && a.bp <= 8 * |input| && Understood(input, g.bs, !a.mode.Type?)
      && a.bp == Finish(g.bs) && a.out == Content(base, g.bs)
  {
    hide Understood, Content, Finish, CodesGood, PlainGood, Begins, SentAt, CodeLens, Peek;
  }

  // ---- the beginning of a block ----

  lemma ThreeBits(input: seq<byte>, p: nat)
    ensures var t := Peek(input, p, 3);
      t < 8 && Begins(input, p, t % 2 == 1, t / 2)
  {
    hide Peek;
    PeekSplit(input, p, 1, 2);
    PeekSmall(input, p, 1);
    PeekSmall(input, p + 1, 2);
    ShlTwice(Peek(input, p + 1, 2));
  }

  lemma PeekSmall(input: seq<byte>, p: nat, n: nat)
    ensures Peek(input, p, n) < Pow2(n)
    ensures Pow2(1) == 2 && Pow2(2) == 4 && Pow2(4) == 16 && Pow2(5) == 32
  {
  }

  lemma ShlFive(x: nat)
    ensures Shl(x, 5) == 32 * x
  {
    assert Shl(x, 5) == 2 * Shl(x, 4) && Shl(x, 4) == 2 * Shl(x, 3) && Shl(x, 3) == 2 * Shl(x, 2);
    assert Shl(x, 2) == 2 * Shl(x, 1) && Shl(x, 1) == 2 * Shl(x, 0);
  }

  lemma FourteenBits(input: seq<byte>, p: nat)
    ensures var t := Peek(input, p, 14);
      t % 32 == Peek(input, p, 5) && (t / 32) % 32 == Peek(input, p + 5, 5) && t / 1024 == Peek(input, p + 10, 4)
  {
    hide Peek;
    PeekSplit(input, p, 5, 9);
    PeekSplit(input, p + 5, 5, 4);
    ShlFive(Peek(input, p + 5, 9));
    ShlFive(Peek(input, p + 10, 4));
    PeekSmall(input, p, 5);
    PeekSmall(input, p + 5, 5);
    Fields(Peek(input, p, 5), Peek(input, p + 5, 5), Peek(input, p + 10, 4));
  }

  lemma Fields(x: nat, y: nat, z: nat)
    requires x < 32 && y < 32
    ensures var t := x + 32 * (y + 32 * z); t % 32 == x && (t / 32) % 32 == y && t / 1024 == z
  {
  }

  /** The state after the first three bits, with nothing of the block decoded yet. */
  lemma TypeKeep(input: seq<byte>, base: seq<byte>, a: AState, g: Progress, b: AState) returns (g': Progress)
    requires |base| > 0 && a.mode.Type? && Good(input, base, a, g) && TypeStep(input, |input|, a) == Some(b)
    ensures Good(input, base, b, g')
  {
    hide Good, Peek, Begins, Understood, Content, Finish, FixedLit, FixedDist, Tree.Ok, TreesWF, CodesGood;
    BetweenIs(input, base, a, g);
    ThreeBits(input, a.bp);
    var t := Peek(input, a.bp, 3);
    g' := g.(ll := FixedLit(), dl := FixedDist(), first := a.bp + 3, toks := []);
    if t / 2 == 0 {
      AlignUpAligned(a.bp + 3);
      LensSo(input, base, b, g');
    } else if t / 2 == 1 {
      FixedWF();
      FixedStart(input, base, b, g');
    } else if t / 2 == 2 {
      TableSo(input, base, b, g');
    } else {
      BadSo(input, base, b, g');
    }
  }

  lemma LensSo(input: seq<byte>, base: seq<byte>, a: AState, g: Progress)
    requires |base| > 0 && a.mode.Lens?
    ensures Good(input, base, a, g) <==>
      && a.bp <= 8 * |input| && Understood(input, g.bs, false)
      && Begins(input, Finish(g.bs), a.last, 0) && a.bp == AlignUp(Finish(g.bs) + 3) && a.out == Content(base, g.bs)
  {
    hide Understood, Content, Finish, CodesGood, PlainGood, Begins, SentAt, CodeLens, Peek;
  }

  lemma TableSo(input: seq<byte>, base: seq<byte>, a: AState, g: Progress)
    requires |base| > 0 && a.mode.Table?
    ensures Good(input, base, a, g) <==>
      && a.bp <= 8 * |input| && Understood(input, g.bs, false)
      && Begins(input, Finish(g.bs), a.last, 2) && a.bp == Finish(g.bs) + 3 && a.out == Content(base, g.bs)
  {
    hide Understood, Content, Finish, CodesGood, PlainGood, Begins, SentAt, CodeLens, Peek;
  }

  lemma PlainSo(input: seq<byte>, base: seq<byte>, a: AState, g: Progress)
    requires |base| > 0 && a.mode.Stored?
    ensures Good(input, base, a, g) <==>
      a.bp <= 8 * |input| && Understood(input, g.bs, false) && PlainGood(input, base, a, g, a.mode.left)
  {
    hide Understood, Content, Finish, CodesGood, PlainGood, Begins, SentAt, CodeLens, Peek;
  }

  ghost predicate BTreeGood(input: seq<byte>, base: seq<byte>, a: AState, g: Progress, table: nat, got: seq<nat>)
    requires |base| > 0
  {
    var p := Finish(g.bs);
    && Begins(input, p, a.last, 2) && table == Peek(input, p + 3, 14) && a.out == Content(base, g.bs)
    && a.bp == p + 17 + 3 * |got| && forall i | 0 <= i < |got| :: got[i] == Peek(input, p + 17 + 3 * i, 3)
  }

  lemma BTreeSo(input: seq<byte>, base: seq<byte>, a: AState, g: Progress)
    requires |base| > 0 && a.mode.BTree?
    ensures Good(input, base, a, g) <==>
      a.bp <= 8 * |input| && Understood(input, g.bs, false) && BTreeGood(input, base, a, g, a.mode.table, a.mode.got)
  {
    hide Understood, Content, Finish, CodesGood, PlainGood, Begins, SentAt, CodeLens, Peek;
  }

  ghost predicate DTreeGood(input: seq<byte>, base: seq<byte>, a: AState, g: Progress, table: nat, cl: seq<nat>,
                            got: seq<nat>)
    requires |base| > 0
  {
    var p := Finish(g.bs);
    && Begins(input, p, a.last, 2) && table == Peek(input, p + 3, 14) && a.out == Content(base, g.bs)
    && cl == CodeLens(input, p + 17, LenCodes(table)) && |cl| == 19
    && SentAt(input, p + 17 + 3 * LenCodes(table), cl, g.m) == Sent(got, a.bp)
  }

  lemma DTreeSo(input: seq<byte>, base: seq<byte>, a: AState, g: Progress)
    requires |base| > 0 && a.mode.DTree?
    ensures Good(input, base, a, g) <==>
      a.bp <= 8 * |input| && Understood(input, g.bs, false)
      && DTreeGood(input, base, a, g, a.mode.table, a.mode.cl, a.mode.got)
  {
    hide Understood, Content, Finish, CodesGood, PlainGood, Begins, SentAt, CodeLens, Peek;
  }

  lemma BadSo(input: seq<byte>, base: seq<byte>, a: AState, g: Progress)
    requires |base| > 0 && a.mode.Bad? && a.bp <= 8 * |input| && Understood(input, g.bs, false)
    ensures Good(input, base, a, g)
  {
    hide Understood, Content, Finish, CodesGood, PlainGood, Begins, SentAt, CodeLens, Peek;
  }

  /** At the first code of a block nothing is decoded. */
  lemma CodesStart(input: seq<byte>, base: seq<byte>, a: AState, g: Progress)
    requires |base| > 0 && a.mode.InCodes? && a.mode.cm.Start? && a.bp <= 8 * |input| && Understood(input, g.bs, false)
    requires Opened(input, g, a.last) && TreesOf(a.mode.lt, a.mode.dt, g.ll, g.dl)
    requires g.toks == [] && g.first == a.bp && a.out == Content(base, g.bs)
    ensures Good(input, base, a, g)
  {
    hide Understood, Content, Finish, Opened, TreesWF, Tree.Ok, PieceAt, Within, Good;
    TreesFacts(a.mode.lt, a.mode.dt);
    WithinStart(input, base, a.mode.lt, a.mode.dt, a.bp, a.out, Next(input, g), g.dl);
    CodesSo(input, base, a, g);
  }

  lemma FixedStart(input: seq<byte>, base: seq<byte>, a: AState, g: Progress)
    requires |base| > 0 && a.mode == InCodes(FixedLitTree(), Some(FixedDistTree()), Start) && a.bp <= 8 * |input|
    requires Understood(input, g.bs, false)
    requires Begins(input, Finish(g.bs), a.last, 1) && a.bp == Finish(g.bs) + 3 && a.out == Content(base, g.bs)
    requires g.ll == FixedLit() && g.dl == FixedDist() && g.toks == [] && g.first == a.bp
    ensures Good(input, base, a, g)
  {
    hide *;
    OpenedFixed(input, g, a.last);
    FixedPair(g);
    CodesStart(input, base, a, g);
  }

  lemma OpenedFixed(input: seq<byte>, g: Progress, last: bool)
    requires Begins(input, Finish(g.bs), last, 1) && g.ll == FixedLit() && g.dl == FixedDist()
    requires g.first == Finish(g.bs) + 3
    ensures Opened(input, g, last)
  {
    hide Begins, FixedLit, FixedDist, Header;
  }

  lemma FixedPair(g: Progress)
    requires g.ll == FixedLit() && g.dl == FixedDist()
    ensures TreesOf(FixedLitTree(), Some(FixedDistTree()), g.ll, g.dl)
  {
    hide FixedLit, FixedDist, TreesWF;
    FixedWF();
  }

  // ---- stored blocks ----

  lemma LensKeep(input: seq<byte>, base: seq<byte>, a: AState, g: Progress, b: AState) returns (g': Progress)
    requires |base| > 0 && a.mode.Lens? && Good(input, base, a, g) && LensStep(input, |input|, a) == Some(b)
    ensures Good(input, base, b, g')
  {
    hide Good, Peek, Begins, Understood, Content, Finish, AlignUp, Encoded;
    LensSo(input, base, a, g);
    var p, n := a.bp, Peek(input, a.bp, 16);
    AlignUpAligned(Finish(g.bs) + 3);
    g' := g;
    if n + Peek(input, p + 16, 16) != 65535 {
      BadSo(input, base, b, g);
    } else if n > 0 {
      PlainSo(input, base, b, g);
    } else {
      g' := PlainDone(input, base, b, g, a.last, []);
    }
  }

  /** A stored block is complete. */
  lemma PlainDone(input: seq<byte>, base: seq<byte>, b: AState, g: Progress, last: bool, s: seq<byte>)
    returns (g': Progress)
    requires |base| > 0 && Understood(input, g.bs, false) && b.bp <= 8 * |input| && b.out == Content(base, g.bs) + s
    requires Begins(input, Finish(g.bs), last, 0) && b.mode == (if last then Dry else Type)
    requires var p := AlignUp(Finish(g.bs) + 3);
      && p % 8 == 0 && Peek(input, p, 16) == |s| && Peek(input, p + 16, 16) == 65535 - |s|
      && b.bp == p + 32 + 8 * |s| && input[p / 8 + 4..b.bp / 8] == s
    ensures Good(input, base, b, g')
  {
    hide Good, Peek, Understood, Content, Finish, AlignUp;
    var x := Block(Finish(g.bs), b.bp, Plain(s));
    UnderstoodMore(input, g.bs, x, last);
    ContentMore(base, g.bs, x);
    g' := g.(bs := g.bs + [x]);
    BetweenSo(input, base, b, g');
  }

  lemma PlainKeep(input: seq<byte>, base: seq<byte>, a: AState, g: Progress, b: AState) returns (g': Progress)
    requires |base| > 0 && a.mode.Stored? && a.mode.left > 0 && Good(input, base, a, g)
    requires a.bp % 8 == 0 && a.bp + 8 <= 8 * |input|
    requires b == a.(bp := a.bp + 8, out := a.out + [input[a.bp / 8]],
                     mode := if a.mode.left > 1 then Stored(a.mode.left - 1) else if a.last then Dry else Type)
    ensures Good(input, base, b, g')
  {
    hide *;
    PlainSo(input, base, a, g);
    PlainStep(input, base, a, g, a.mode.left, b);
    g' := g;
    if a.mode.left > 1 {
      PlainSo(input, base, b, g);
    } else {
      var s := PlainWhole(input, base, b, g);
      g' := PlainDone(input, base, b, g, a.last, s);
    }
  }

  /** One more byte of a stored block. */
  lemma PlainStep(input: seq<byte>, base: seq<byte>, a: AState, g: Progress, left: nat, b: AState)
    requires |base| > 0 && PlainGood(input, base, a, g, left) && left > 0 && a.bp + 8 <= 8 * |input|
    requires b.bp == a.bp + 8 && b.out == a.out + [input[a.bp / 8]] && b.last == a.last
    ensures PlainGood(input, base, b, g, left - 1)
  {
    hide Peek, Begins, Content, Finish, AlignUp;
    var p := AlignUp(Finish(g.bs) + 3);
    var n := Peek(input, p, 16);
    Bytes(p, n - left);
    Bytes(p, n - left + 1);
  }

  lemma Bytes(p: nat, k: nat)
    requires p % 8 == 0
    ensures (p + 32 + 8 * k) / 8 == p / 8 + 4 + k
  {
  }

  /** All of them. */
  lemma PlainWhole(input: seq<byte>, base: seq<byte>, a: AState, g: Progress) returns (s: seq<byte>)
    requires |base| > 0 && PlainGood(input, base, a, g, 0)
    ensures a.out == Content(base, g.bs) + s && Begins(input, Finish(g.bs), a.last, 0)
    ensures var p := AlignUp(Finish(g.bs) + 3);
      && p % 8 == 0 && Peek(input, p, 16) == |s| && Peek(input, p + 16, 16) == 65535 - |s|
      && a.bp == p + 32 + 8 * |s| && input[p / 8 + 4..a.bp / 8] == s
  {
    hide Peek, Begins, Content, Finish, AlignUp;
    var p := AlignUp(Finish(g.bs) + 3);
    Bytes(p, Peek(input, p, 16));
    s := input[p / 8 + 4..a.bp / 8];
  }

  // ---- the header of a dynamic block ----

  lemma TableKeep(input: seq<byte>, base: seq<byte>, a: AState, g: Progress, b: AState)
    requires |base| > 0 && a.mode.Table? && Good(input, base, a, g) && TableStep(input, |input|, a) == Some(b)
    ensures Good(input, base, b, g)
  {
    hide Good, Peek, Begins, Understood, Content, Finish;
    TableSo(input, base, a, g);
    if b.mode.BTree? {
      BTreeSo(input, base, b, g);
    } else {
      BadSo(input, base, b, g);
    }
  }

  lemma BTreeKeep(input: seq<byte>, base: seq<byte>, a: AState, g: Progress, b: AState, table: nat, got: seq<nat>)
    returns (g': Progress)
    requires |base| > 0 && a.mode == BTree(table, got) && |got| <= LenCodes(table)
    requires BTreeStep(input, |input|, a, table, got) == Some(b)
    requires Good(input, base, a, g)
    ensures Good(input, base, b, g')
  {
    hide Good, Peek, Begins, Understood, Content, Finish, Accept, LenCodes, Unpermute, CodeLens, SentAt;
    BTreeSo(input, base, a, g);
    g' := g;
    if |got| < LenCodes(table) {
      BTreeSo(input, base, b, g);
    } else if b.mode.DTree? {
      g' := g.(m := 0);
      UnpermuteIs(input, Finish(g.bs) + 17, got);
      NoneSentIs(input, a.bp, Unpermute(got));
      DTreeSo(input, base, b, g');
    } else {
      BadSo(input, base, b, g);
    }
  }

  lemma NoneSentIs(input: seq<byte>, p: nat, cl: seq<nat>)
    requires |cl| == 19
    ensures SentAt(input, p, cl, 0) == Sent([], p)
  {
  }

  lemma UnpermuteIs(input: seq<byte>, p: nat, got: seq<nat>)
    requires forall i | 0 <= i < |got| :: got[i] == Peek(input, p + 3 * i, 3)
    ensures Unpermute(got) == CodeLens(input, p, |got|) && |Unpermute(got)| == 19
  {
    hide Peek;
  }

  lemma DTreeKeep(input: seq<byte>, base: seq<byte>, a: AState, g: Progress, b: AState, table: nat, cl: seq<nat>,
                  got: seq<nat>)
    returns (g': Progress)
    requires |base| > 0 && a.mode == DTree(table, cl, got) && DTreeWF(table, cl, got)
    requires Accept(BitsTree(cl)) && |got| <= LitCount(table) + DistCount(table)
    requires DTreeStep(input, |input|, a, table, cl, got) == Some(b)
    requires Good(input, base, a, g)
    ensures Good(input, base, b, g')
  {
    hide *;
    DTreeSo(input, base, a, g);
    DTreeCases(input, a, table, cl, got, b);
    g' := g;
    if |got| < LitCount(table) + DistCount(table) {
      g' := LengthKeep(input, base, a, g, b, table, cl, got);
    } else if b.mode.Bad? {
      BadSo(input, base, b, g);
    } else {
      var ll, dl := got[..LitCount(table)], got[LitCount(table)..];
      g' := g.(ll := ll, dl := dl, first := a.bp, toks := []);
      DynTrees(ll, dl);
      HeaderDone(input, base, a, g, table, cl, got);
      DTreeOut(input, base, a, g, table, cl, got);
      CodesStart(input, base, b, g');
    }
  }

  lemma DTreeCases(input: seq<byte>, a: AState, table: nat, cl: seq<nat>, got: seq<nat>, b: AState)
    requires Accept(BitsTree(cl)) && |got| <= LitCount(table) + DistCount(table)
    requires DTreeStep(input, |input|, a, table, cl, got) == Some(b)
    ensures |got| < LitCount(table) + DistCount(table) ==> ReadLength(input, |input|, a, table, cl, got) == Some(b)
    ensures |got| >= LitCount(table) + DistCount(table) ==>
      var ll, dl := got[..LitCount(table)], got[LitCount(table)..];
      && b.bp == a.bp
      && (b.mode.Bad?
          || (DynAccept(ll, dl)
              && b == a.(mode := InCodes(LitTree(ll), if DistTree(dl).Empty() then None else Some(DistTree(dl)),
                                         Start))))
  {
    hide Accept, ReadLength, DynAccept, Tree.Empty;
  }

  lemma DynTrees(ll: seq<nat>, dl: seq<nat>)
    requires DynAccept(ll, dl)
    ensures TreesOf(LitTree(ll), if DistTree(dl).Empty() then None else Some(DistTree(dl)), ll, dl)
  {
    hide DynAccept, TreesWF, Tree.Empty;
    DynWF(ll, dl);
  }

  lemma DTreeOut(input: seq<byte>, base: seq<byte>, a: AState, g: Progress, table: nat, cl: seq<nat>, got: seq<nat>)
    requires |base| > 0 && DTreeGood(input, base, a, g, table, cl, got)
    ensures a.out == Content(base, g.bs)
  {
    hide Peek, Begins, Content, Finish, LenCodes, CodeLens, SentAt;
  }

  lemma HeaderDone(input: seq<byte>, base: seq<byte>, a: AState, g: Progress, table: nat, cl: seq<nat>, got: seq<nat>)
    requires |base| > 0 && DTreeGood(input, base, a, g, table, cl, got) && DTreeWF(table, cl, got)
    requires |got| == LitCount(table) + DistCount(table)
    requires DynAccept(got[..LitCount(table)], got[LitCount(table)..])
    ensures Opened(input, g.(ll := got[..LitCount(table)], dl := got[LitCount(table)..], first := a.bp, toks := []),
                   a.last)
  {
    hide Peek, Begins, Finish, Accept, CodeLens, SentAt, DynAccept, Decodable, DecodablePair, TrimmedPair, Header;
    HeaderRead(input, Finish(g.bs), table, cl, got, g.m, a.bp);
  }

  /** The lengths read are the header of the block at bit p. */
  lemma HeaderRead(input: seq<byte>, p: nat, table: nat, cl: seq<nat>, got: seq<nat>, m: nat, q: nat)
    requires table == Peek(input, p + 3, 14) && DTreeWF(table, cl, got) && |got| == LitCount(table) + DistCount(table)
    requires cl == CodeLens(input, p + 17, LenCodes(table))
    requires SentAt(input, p + 17 + 3 * LenCodes(table), cl, m) == Sent(got, q)
    requires DynAccept(got[..LitCount(table)], got[LitCount(table)..])
    ensures Header(input, p + 3, got[..LitCount(table)], got[LitCount(table)..], m, q)
    ensures TrimmedPair(got[..LitCount(table)], got[LitCount(table)..])
  {
    hide Peek, Accept, CodeLens, SentAt, DynAccept, Decodable, DecodablePair, TrimmedPair;
    FourteenBits(input, p + 3);
    AcceptIsDecodable(BitsTree(cl));
    var ll, dl := got[..LitCount(table)], got[LitCount(table)..];
    DynIsDecodable(ll, dl);
    assert ll + dl == got;
  }

  /** What one code-length symbol leads to. */
  lemma ReadCases(input: seq<byte>, a: AState, table: nat, cl: seq<nat>, got: seq<nat>, b: AState)
    requires Accept(BitsTree(cl)) && ReadLength(input, |input|, a, table, cl, got) == Some(b) && a.bp <= 8 * |input|
    ensures b.bp <= 8 * |input| && (b.mode.Bad? || b.mode.DTree?)
    ensures var (c, bits) := ReadSym(input, a.bp, cl); b.mode.DTree? ==>
      if c < 16 then b == a.(bp := a.bp + bits, mode := DTree(table, cl, got + [c]))
      else (c == 16 ==> got != []) && b == a.(bp := a.bp + bits + RepeatBits(c),
             mode := DTree(table, cl, got + Repeat(RepeatBase(c) + Peek(input, a.bp + bits, RepeatBits(c)),
                                                   if c == 16 then got[|got| - 1] else 0)))
  {
    hide Accept, Peek, ReadSym, Root, LitCount, DistCount, Repeat, RepeatBits, RepeatBase;
    ReadSymBits(cl, input, a.bp);
  }

  lemma LengthKeep(input: seq<byte>, base: seq<byte>, a: AState, g: Progress, b: AState, table: nat, cl: seq<nat>,
                   got: seq<nat>)
    returns (g': Progress)
    requires |base| > 0 && a.mode == DTree(table, cl, got) && DTreeWF(table, cl, got) && Accept(BitsTree(cl))
    requires ReadLength(input, |input|, a, table, cl, got) == Some(b)
    requires Good(input, base, a, g)
    ensures Good(input, base, b, g')
  {
    hide *;
    DTreeSo(input, base, a, g);
    DTreeIs(table, cl, got);
    ReadSymIs(cl, input, a.bp);
    ReadCases(input, a, table, cl, got, b);
    g' := g;
    if b.mode.Bad? {
      BadSo(input, base, b, g);
    } else {
      g' := g.(m := g.m + 1);
      LengthGood(input, base, a, g, b, table, cl, got);
      DTreeSo(input, base, b, g');
    }
  }

  lemma DTreeIs(table: nat, cl: seq<nat>, got: seq<nat>)
    requires DTreeWF(table, cl, got)
    ensures |cl| == 19 && forall i | 0 <= i < 19 :: cl[i] <= 7
  {
    hide Accept;
  }

  lemma LengthGood(input: seq<byte>, base: seq<byte>, a: AState, g: Progress, b: AState, table: nat, cl: seq<nat>,
                   got: seq<nat>)
    requires |base| > 0 && DTreeGood(input, base, a, g, table, cl, got) && b.mode.DTree?
    requires var c := LengthSymbol(cl, Peek(input, a.bp, 15)); var bits := cl[c];
      if c < 16 then b == a.(bp := a.bp + bits, mode := DTree(table, cl, got + [c]))
      else (c == 16 ==> got != []) && b == a.(bp := a.bp + bits + RepeatBits(c),
             mode := DTree(table, cl, got + Repeat(RepeatBase(c) + Peek(input, a.bp + bits, RepeatBits(c)),
                                                   if c == 16 then got[|got| - 1] else 0)))
    ensures DTreeGood(input, base, b, g.(m := g.m + 1), b.mode.table, b.mode.cl, b.mode.got)
  {
    hide Peek, Begins, Content, Finish, LenCodes, CodeLens, SentAt, Repeat, LengthSymbol, RepeatBits, RepeatBase;
    SentMore(input, Finish(g.bs) + 17 + 3 * LenCodes(table), cl, g.m, got, a.bp);
  }

  lemma ReadSymBits(cl: seq<nat>, input: seq<byte>, p: nat)
    requires Accept(BitsTree(cl))
    ensures ReadSym(input, p, cl).1 <= Root(BitsTree(cl))
  {
    hide Accept, Root, Look, LengthSym;
  }

  lemma SentMore(input: seq<byte>, p: nat, cl: seq<nat>, m: nat, got: seq<nat>, q: nat)
    requires |cl| == 19 && SentAt(input, p, cl, m) == Sent(got, q)
    ensures var y := LengthSymbol(cl, Peek(input, q, 15)); var r := q + cl[y];
      SentAt(input, p, cl, m + 1) ==
        if y < 16 then Sent(got + [y], r)
        else if y == 16 && got == [] then NoneSent
        else Sent(got + Repeat(RepeatBase(y) + Peek(input, r, RepeatBits(y)), if y == 16 then got[|got| - 1] else 0),
                  r + RepeatBits(y))
  {
    hide Peek, LengthSymbol, Repeat;
  }

  // ---- whole runs ----

  lemma StepKeep(input: seq<byte>, base: seq<byte>, a: AState, g: Progress, b: AState) returns (g': Progress)
    requires |base| > 0 && WF(a) && Good(input, base, a, g) && Step(input, base, |input|, a) == Some(b)
    ensures Good(input, base, b, g')
  {
    hide Good, Accept, CodesStep, DTreeStep, BTreeStep, TableStep, LensStep, TypeStep, Understood, Content,
      Finish, CodesWF;
    g' := g;
    match a.mode
    case Type => g' := TypeKeep(input, base, a, g, b);
    case Lens => g' := LensKeep(input, base, a, g, b);
    case Stored(_) => g' := PlainKeep(input, base, a, g, b);
    case Table => TableKeep(input, base, a, g, b);
    case BTree(table, got) =>
      g' := BTreeKeep(input, base, a, g, b, table, got);
    case DTree(table, cl, got) => g' := DTreeKeep(input, base, a, g, b, table, cl, got);
    case InCodes(_, _, _) => g' := CodesKeep(input, base, a, g, b);
    case Dry =>
      BetweenIs(input, base, a, g);
      BetweenIs(input, base, b, g);
    case _ =>
  }

  /** At every step the machine stands somewhere in a stream that it has understood so far. */
  lemma {:induction false} Follows(input: seq<byte>, base: seq<byte>, n: nat) returns (g: Progress)
    requires |base| > 0 && Run(input, base, n).Some?
    ensures Good(input, base, Run(input, base, n).value, g)
  {
    hide Good, Step, WF;
    if n == 0 {
      g := Progress([], [], [], 0, 0, []);
      BetweenIs(input, base, INITIAL, g);
      assert Understood(input, [], false) && Content(base, []) == [] && Finish([]) == 0;
    } else {
      g := Follows(input, base, n - 1);
      g := StepKeep(input, base, Run(input, base, n - 1).value, g, Run(input, base, n).value);
    }
  }

  /**
   * A run that comes to the end has delivered exactly what the blocks of the stream stand for, and ends where they do.
   */
  lemma DoneIsDecoded(input: seq<byte>, base: seq<byte>, n: nat) returns (bs: seq<Block>)
    requires |base| > 0 && Run(input, base, n).Some? && Run(input, base, n).value.mode.Done?
    ensures Blocks(input, bs, true) && Trimmed(bs) && Run(input, base, n).value.out == Content(base, bs)
    ensures Run(input, base, n).value.bp == Finish(bs)
  {
    hide Good, Run, Blocks, Trimmed, Content, Finish;
    var g := Follows(input, base, n);
    BetweenIs(input, base, Run(input, base, n).value, g);
    bs := g.bs;
  }
}
