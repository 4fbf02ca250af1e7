/** The tokens tallied and the blocks flushed by deflate.c, and what they expand to. */
module DeflateBlocks {
  import opened Stream
  import opened Lz77
  import opened HashChains
  import opened InflateTrees

  /**
   * What one call of _tr_flush_block is given: the tokens since
   * the last one, the bytes they stand for if still in the window.
   */
  datatype Block = Block(start: nat, end: nat, syms: seq<Token>, stored: Option<seq<byte>>, last: bool)

  datatype Level = STORED_ONLY | FAST | LAZY

  /**
   * What the configuration allows a match to be: how far back it may reach, how far if it has
   * the least length, how short it may be; and the positions where the history was forgotten.
   */
  datatype Rules = Rules(far: int, near: int, least: nat, floors: seq<nat>)

  /** No matches with HUFFMAN_ONLY; lazy matching drops short ones if FILTERED, and those of length 3 if too far. */
  function RulesOf(c: Conf, level: Level, floors: seq<nat>): Rules {
    Rules(if c.strategy == HUFFMAN_ONLY then 0 else c.wsize - 262, if level == LAZY then 4096 else c.wsize - 262,
          if level == LAZY && c.strategy == FILTERED then 6 else 3, floors)
  }

  /** A token that the format can express and the configuration allows. */
  predicate Legal(t: Token, r: Rules) {
    t.Match? ==> r.least <= t.len && 3 <= t.len <= 258 && 1 <= t.dist <= r.far && (t.len == 3 ==> t.dist <= r.near)
  }

  predicate AllLegal(ts: seq<Token>, r: Rules) { forall i | 0 <= i < |ts| :: Legal(ts[i], r) }

  /** Where the history was last forgotten. */
  function Last(floors: seq<nat>): nat { if floors == [] then 0 else floors[|floors| - 1] }

  /** A match that reaches back no farther than to where the history was last forgotten. */
  predicate Genuine(all: seq<byte>, floor: nat, p: int, dist: int, n: int) {
    Agree(all, p, dist, n) && floor + dist <= p
  }

  /** A match that may become a token. */
  predicate Allowed(all: seq<byte>, r: Rules, p: int, dist: nat, n: nat) {
    Genuine(all, Last(r.floors), p, dist, n) && Legal(Match(dist, n), r)
  }

  /** Given what comes before from position f on, the tokens stand for the input between two positions. */
  predicate From(all: seq<byte>, f: nat, start: nat, end: nat, ts: seq<Token>)
    requires f <= start <= end <= |all|
  {
    Expand(all[f..start], ts) == all[f..end]
  }

  /** The tokens stand for the input between two positions, for whoever starts where the history was forgotten. */
  predicate Covers(all: seq<byte>, start: nat, end: nat, ts: seq<Token>, r: Rules) {
    && start <= end <= |all| && AllLegal(ts, r) && (start == end ==> ts == []) && From(all, 0, start, end, ts)
    && (forall i | 0 <= i < |r.floors| :: r.floors[i] <= start || end <= r.floors[i])
    && (forall i | 0 <= i < |r.floors| && r.floors[i] <= start :: From(all, r.floors[i], start, end, ts))
  }

  predicate BlockFine(all: seq<byte>, b: Block, r: Rules) {
    && Covers(all, b.start, b.end, b.syms, r)
    && (b.stored.Some? ==> b.stored.value == all[b.start..b.end])
  }

  /** The blocks follow each other from the beginning of the input to end. */
  predicate BlocksOK(all: seq<byte>, bs: seq<Block>, end: nat, r: Rules) {
    if bs == [] then end == 0
    else
      && bs[|bs| - 1].end == end && BlockFine(all, bs[|bs| - 1], r)
      && BlocksOK(all, bs[..|bs| - 1], bs[|bs| - 1].start, r)
  }

  function AllTokens(bs: seq<Block>): seq<Token> {
    if bs == [] then [] else AllTokens(bs[..|bs| - 1]) + bs[|bs| - 1].syms
  }

  /** The tokens of the blocks that start at position f or later. */
  function TokensFrom(bs: seq<Block>, f: nat): seq<Token> {
    if bs == [] then []
    else TokensFrom(bs[..|bs| - 1], f) + if bs[|bs| - 1].start >= f then bs[|bs| - 1].syms else []
  }

  predicate NoneAbove(floors: seq<nat>, f: nat) { forall i | 0 <= i < |floors| :: floors[i] <= f }

  /** Everything tallied so far stands for the input up to done. */
  predicate Tallied(all: seq<byte>, bs: seq<Block>, syms: seq<Token>, start: int, done: nat, r: Rules) {
    && start >= 0 && BlocksOK(all, bs, start, r) && Covers(all, start, done, syms, r)
    && NoneAbove(r.floors, Last(r.floors)) && Last(r.floors) <= start
  }

  lemma AllTokensMore(bs: seq<Block>, b: Block)
    ensures AllTokens(bs + [b]) == AllTokens(bs) + b.syms
  {
    assert (bs + [b])[..|bs|] == bs;
  }

  lemma {:induction false} BlocksExpand(all: seq<byte>, bs: seq<Block>, end: nat, r: Rules)
    requires BlocksOK(all, bs, end, r)
    ensures end <= |all| && Expand([], AllTokens(bs)) == all[..end]
    decreases |bs|
  {
    if bs != [] {
      var b := bs[|bs| - 1];
      BlocksExpand(all, bs[..|bs| - 1], b.start, r);
      ExpandTwo([], AllTokens(bs[..|bs| - 1]), b.syms);
      assert all[0..b.start] == all[..b.start];
    }
  }

  /** The tokens of all blocks and those still pending expand to the input up to done. */
  lemma TalliedExpand(all: seq<byte>, bs: seq<Block>, syms: seq<Token>, start: int, done: nat, r: Rules)
    requires Tallied(all, bs, syms, start, done, r)
    ensures done <= |all| && Expand([], AllTokens(bs) + syms) == all[..done]
  {
    BlocksExpand(all, bs, start, r);
    ExpandTwo([], AllTokens(bs), syms);
    assert all[0..start] == all[..start];
  }

  lemma {:induction false} NoneFrom(all: seq<byte>, bs: seq<Block>, end: nat, r: Rules, f: nat)
    requires BlocksOK(all, bs, end, r) && end < f
    ensures TokensFrom(bs, f) == []
    decreases |bs|
  {
    if bs != [] {
      NoneFrom(all, bs[..|bs| - 1], bs[|bs| - 1].start, r, f);
    }
  }

  lemma {:induction false} BlocksFrom(all: seq<byte>, bs: seq<Block>, end: nat, r: Rules, i: nat)
    requires BlocksOK(all, bs, end, r) && i < |r.floors| && r.floors[i] <= end
    ensures end <= |all| && Expand([], TokensFrom(bs, r.floors[i])) == all[r.floors[i]..end]
    decreases |bs|
  {
    var f := r.floors[i];
    if bs != [] {
      var b, bs' := bs[|bs| - 1], bs[..|bs| - 1];
      if b.start >= f {
        BlocksFrom(all, bs', b.start, r, i);
        ExpandTwo([], TokensFrom(bs', f), b.syms);
      } else {
        NoneFrom(all, bs', b.start, r, f);
      }
    }
  }

  /** The tokens after a place where the history was forgotten expand to the input from there on, without any before. */
  lemma TalliedFrom(all: seq<byte>, bs: seq<Block>, syms: seq<Token>, start: int, done: nat, r: Rules, i: nat)
    requires Tallied(all, bs, syms, start, done, r) && i < |r.floors|
    ensures r.floors[i] <= done <= |all|
    ensures Expand([], TokensFrom(bs, r.floors[i]) + syms) == all[r.floors[i]..done]
  {
    BlocksFrom(all, bs, start, r, i);
    ExpandTwo([], TokensFrom(bs, r.floors[i]), syms);
  }

  lemma CoversMore(all: seq<byte>, start: nat, done: nat, ts: seq<Token>, r: Rules, t: Token, end: nat)
    requires Covers(all, start, done, ts, r) && Legal(t, r) && done < end <= |all|
    requires forall i | 0 <= i < |r.floors| :: r.floors[i] <= start
    requires Apply(all[0..done], t) == all[0..end]
    requires forall i | 0 <= i < |r.floors| :: Apply(all[r.floors[i]..done], t) == all[r.floors[i]..end]
    ensures Covers(all, start, end, ts + [t], r)
  {
    hide Expand, Apply;
    ExpandOne(all[0..start], ts, t);
    forall i | 0 <= i < |r.floors| && r.floors[i] <= start
      ensures From(all, r.floors[i], start, end, ts + [t])
    {
      assert From(all, r.floors[i], start, done, ts);
      ExpandOne(all[r.floors[i]..start], ts, t);
    }
  }

  lemma TallyLiteral(all: seq<byte>, bs: seq<Block>, syms: seq<Token>, start: int, done: nat, r: Rules)
    requires done < |all| && Tallied(all, bs, syms, start, done, r)
    ensures Tallied(all, bs, syms + [Literal(all[done])], start, done + 1, r)
  {
    hide BlocksOK, Expand;
    var t := Literal(all[done]);
    assert all[0..done] + [all[done]] == all[0..done + 1];
    forall i | 0 <= i < |r.floors|
      ensures Apply(all[r.floors[i]..done], t) == all[r.floors[i]..done + 1]
    {
      assert all[r.floors[i]..done] + [all[done]] == all[r.floors[i]..done + 1];
    }
    CoversMore(all, start, done, syms, r, t, done + 1);
  }

  lemma TallyMatch(all: seq<byte>, bs: seq<Block>, syms: seq<Token>, start: int, done: nat, r: Rules, dist: nat,
                   len: nat)
    requires Allowed(all, r, done, dist, len) && Tallied(all, bs, syms, start, done, r)
    ensures Tallied(all, bs, syms + [Match(dist, len)], start, done + len, r)
  {
    hide BlocksOK, Expand, Copy;
    var t := Match(dist, len);
    CopyFrom(all, 0, done, dist, len);
    forall i | 0 <= i < |r.floors|
      ensures Apply(all[r.floors[i]..done], t) == all[r.floors[i]..done + len]
    {
      CopyFrom(all, r.floors[i], done, dist, len);
    }
    CoversMore(all, start, done, syms, r, t, done + len);
  }

  /** _tr_flush_block: the tokens become a block. */
  lemma FlushTokens(all: seq<byte>, bs: seq<Block>, syms: seq<Token>, start: int, done: nat, r: Rules, b: Block)
    requires Tallied(all, bs, syms, start, done, r)
    requires b.start == start && b.end == done && b.syms == syms
    requires b.stored.Some? ==> b.stored.value == all[start..done]
    ensures Tallied(all, bs + [b], [], done, done, r)
  {
    assert (bs + [b])[..|bs|] == bs;
  }

  lemma {:induction false} BlocksFloor(all: seq<byte>, bs: seq<Block>, end: nat, r: Rules, f: nat)
    requires BlocksOK(all, bs, end, r) && end <= f
    ensures BlocksOK(all, bs, end, r.(floors := r.floors + [f]))
    decreases |bs|
  {
    if bs != [] {
      BlocksFloor(all, bs[..|bs| - 1], bs[|bs| - 1].start, r, f);
    }
  }

  /** The history is forgotten after a flush. */
  lemma TallyFloor(all: seq<byte>, bs: seq<Block>, start: nat, r: Rules)
    requires Tallied(all, bs, [], start, start, r)
    ensures Tallied(all, bs, [], start, start, r.(floors := r.floors + [start]))
  {
    hide BlocksOK;
    BlocksFloor(all, bs, start, r, start);
  }

  lemma TalliedEnds(all: seq<byte>, bs: seq<Block>, syms: seq<Token>, start: int, done: nat, r: Rules)
    requires Tallied(all, bs, syms, start, done, r)
    ensures 0 <= start <= done <= |all| && Last(r.floors) <= start
  {
    hide BlocksOK, Expand;
  }

  lemma {:induction false} BlocksLegal(all: seq<byte>, bs: seq<Block>, end: nat, r: Rules)
    requires BlocksOK(all, bs, end, r)
    ensures AllLegal(AllTokens(bs), r)
    decreases |bs|
  {
    hide Expand, Legal;
    if bs != [] {
      BlocksLegal(all, bs[..|bs| - 1], bs[|bs| - 1].start, r);
    }
  }

  lemma TokensLegal(all: seq<byte>, bs: seq<Block>, syms: seq<Token>, start: int, done: nat, r: Rules)
    requires Tallied(all, bs, syms, start, done, r)
    ensures BlocksOK(all, bs, start, r) && start >= 0
    ensures forall t | t in AllTokens(bs) + syms :: Legal(t, r)
  {
    hide BlocksOK, Expand, Legal;
    BlocksLegal(all, bs, start, r);
  }

  // ---- which blocks a call adds ----

  /** The new blocks have that many tokens each, and none is the last of the stream. */
  predicate Grown(bs: seq<Block>, bs': seq<Block>, most: nat) {
    bs <= bs' && forall i | |bs| <= i < |bs'| :: |bs'[i].syms| == most && !bs'[i].last
  }

  /** ... but for one at the end, which is the last of the stream or not. */
  predicate Closed(bs: seq<Block>, bs': seq<Block>, most: nat, eof: bool) {
    bs' != [] && Grown(bs, bs'[..|bs'| - 1], most) && bs'[|bs'| - 1].last == eof
  }

  predicate NoneLast(bs: seq<Block>) { forall i | 0 <= i < |bs| :: !bs[i].last }

  lemma GrownSame(bs: seq<Block>, most: nat)
    ensures Grown(bs, bs, most)
  {
  }

  lemma GrownMore(bs: seq<Block>, bs': seq<Block>, most: nat, b: Block)
    requires Grown(bs, bs', most) && |b.syms| == most && !b.last
    ensures Grown(bs, bs' + [b], most)
  {
  }

  lemma GrownClosed(bs: seq<Block>, bs': seq<Block>, most: nat, b: Block)
    requires Grown(bs, bs', most)
    ensures Closed(bs, bs' + [b], most, b.last)
  {
    assert (bs' + [b])[..|bs'|] == bs';
  }

  lemma GrownOn(bs: seq<Block>, cs: seq<Block>, ds: seq<Block>, most: nat)
    requires Grown(bs, cs, most) && Grown(cs, ds, most)
    ensures Grown(bs, ds, most)
  {
    forall i | |bs| <= i < |ds|
      ensures |ds[i].syms| == most && !ds[i].last
    {
      assert i < |cs| ==> cs[i] == ds[i];
    }
  }

  /** If no block was the last of the stream, none of the new ones is, but for one that closes it. */
  lemma StillNoneLast(bs: seq<Block>, bs': seq<Block>, most: nat, eof: bool)
    requires NoneLast(bs)
    ensures Grown(bs, bs', most) ==> NoneLast(bs')
    ensures Closed(bs, bs', most, eof) ==> bs' != [] && NoneLast(bs'[..|bs'| - 1]) && bs'[|bs'| - 1].last == eof
    ensures Closed(bs, bs', most, false) ==> NoneLast(bs')
  {
    if Grown(bs, bs', most) {
      forall i | 0 <= i < |bs'|
        ensures !bs'[i].last
      {
        assert i < |bs| ==> bs[i] == bs'[i];
      }
    }
    if bs' != [] && Grown(bs, bs'[..|bs'| - 1], most) {
      var ds := bs'[..|bs'| - 1];
      forall i | 0 <= i < |ds|
        ensures !ds[i].last
      {
        assert i < |bs| ==> bs[i] == ds[i];
      }
    }
  }

  // ---- stored blocks ----

  /** A block of level 0: its bytes are in the window and it is short enough for the format and the buffer. */
  predicate StoredFine(all: seq<byte>, b: Block, most: int) {
    b.start <= b.end <= |all| && b.syms == [] && b.stored == Some(all[b.start..b.end]) && b.end - b.start <= most
  }

  predicate StoredOK(all: seq<byte>, bs: seq<Block>, end: nat, most: int) {
    if bs == [] then end == 0
    else
      && bs[|bs| - 1].end == end && StoredFine(all, bs[|bs| - 1], most)
      && StoredOK(all, bs[..|bs| - 1], bs[|bs| - 1].start, most)
  }

  function AllStored(bs: seq<Block>): seq<byte> {
    if bs == [] then []
    else AllStored(bs[..|bs| - 1]) + if bs[|bs| - 1].stored.Some? then bs[|bs| - 1].stored.value else []
  }

  /** Stored blocks together are the input up to where the last one ends. */
  lemma {:induction false} StoredExpand(all: seq<byte>, bs: seq<Block>, end: nat, most: int)
    requires StoredOK(all, bs, end, most)
    ensures end <= |all| && AllStored(bs) == all[..end]
    decreases |bs|
  {
    if bs != [] {
      var b := bs[|bs| - 1];
      StoredExpand(all, bs[..|bs| - 1], b.start, most);
      assert all[..b.start] + all[b.start..b.end] == all[..b.end];
    }
  }

  lemma StoredFlush(all: seq<byte>, bs: seq<Block>, end: nat, most: int, b: Block)
    requires StoredOK(all, bs, end, most) && b.start == end && StoredFine(all, b, most)
    ensures StoredOK(all, bs + [b], b.end, most)
  {
    assert (bs + [b])[..|bs|] == bs;
  }

  // ---- where the blocks end ----

  function Ends(bs: seq<Block>): seq<nat> {
    seq(|bs|, i requires 0 <= i < |bs| => bs[i].end)
  }

  lemma EndsNone()
    ensures Ends([]) == []
  {
  }

  lemma EndsMore(bs: seq<Block>, b: Block)
    ensures Ends(bs + [b]) == Ends(bs) + [b.end]
  {
  }
}
