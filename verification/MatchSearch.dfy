/**
 * longest_match of deflate.c as a function of what it reads: what it finds does not depend on bytes beyond the input.
 */
module MatchSearch {
  import opened Stream
  import opened Lz77
  import opened HashChains
  import opened DeflateCore

  /** How far the strings at a and b agree from byte k on, at most to the longest length. */
  function Agreed(w: seq<byte>, a: nat, b: nat, k: nat): (n: nat)
    ensures k <= MAX_MATCH ==> k <= n <= MAX_MATCH
    decreases MAX_MATCH - k
  {
    if k >= MAX_MATCH || !EqAt(w, a, b, k) then k else Agreed(w, a, b, k + 1)
  }

  lemma {:induction false} AgreedIs(w: seq<byte>, a: nat, b: nat, k: nat, n: nat)
    requires k <= n <= MAX_MATCH && (forall j: nat | k <= j < n :: EqAt(w, a, b, j))
    requires n < MAX_MATCH ==> !EqAt(w, a, b, n)
    ensures Agreed(w, a, b, k) == n
    decreases n - k
  {
    hide EqAt;
    if k < n {
      AgreedIs(w, a, b, k + 1, n);
    }
  }

  /** The length found for one candidate; 0 when it is skipped because it cannot be longer than best. */
  function Tried(w: seq<byte>, a: nat, cur: nat, best: nat): nat {
    if best > 0 && EqAt(w, a, cur, best) && EqAt(w, a, cur, best - 1) && EqAt(w, a, cur, 0) && EqAt(w, a, cur, 1)
    then Agreed(w, a, cur, 3) else 0
  }

  /** The longest length so far and where it was found. */
  datatype Best = Best(len: nat, start: nat)

  function Better(b: Best, n: nat, cur: nat): (r: Best)
    ensures r.len >= b.len
  {
    if n > b.len then Best(n, cur) else b
  }

  function After(c: Conf, prev: seq<nat>, cur: nat): nat {
    if Slot(c, cur) < |prev| then prev[Slot(c, cur)] else 0
  }

  /** The search through at most chain candidates from cur on. */
  function Search(c: Conf, w: seq<byte>, prev: seq<nat>, a: nat, limit: nat, nice: nat, cur: nat, chain: nat,
                  b: Best): (r: Best)
    ensures r.len >= b.len
    decreases chain
  {
    var n := Tried(w, a, cur, b.len);
    var best := Better(b, n, cur);
    if n > b.len && n >= nice then best
    else if After(c, prev, cur) > limit && chain > 1 then
      Search(c, w, prev, a, limit, nice, After(c, prev, cur), chain - 1, best)
    else best
  }

  /** longest_match with all that it looks at as arguments. */
  function Longest(c: Conf, w: seq<byte>, prev: seq<nat>, a: nat, lookahead: nat, cur: nat, b: Best): Best {
    Search(c, w, prev, a, if a > MaxDist(c) >= 0 then a - MaxDist(c) else 0,
           if c.nice > lookahead then lookahead else c.nice, cur,
           if b.len >= c.good then c.chain / 4 else c.chain, b)
  }

  /** What is returned: never more than the lookahead. */
  function Cut(n: nat, lookahead: nat): nat { if n <= lookahead then n else lookahead }

  lemma TriedIs(w: seq<byte>, a: nat, cur: nat, best: nat)
    requires 0 < best && cur <= a && a + best < |w| && a + 1 < |w|
    ensures Tried(w, a, cur, best) ==
            if w[cur + best] == w[a + best] && w[cur + best - 1] == w[a + best - 1] && w[cur] == w[a]
              && w[cur + 1] == w[a + 1]
            then Agreed(w, a, cur, 3) else 0
  {
    hide Agreed;
  }

  /** A match that is long enough ends the search. */
  lemma SearchStops(c: Conf, w: seq<byte>, prev: seq<nat>, a: nat, limit: nat, nice: nat, cur: nat, chain: nat, b: Best)
    requires 0 < b.len < Tried(w, a, cur, b.len) && nice <= Tried(w, a, cur, b.len)
    ensures Search(c, w, prev, a, limit, nice, cur, chain, b) == Best(Tried(w, a, cur, b.len), cur)
  {
    hide Tried, After;
  }

  /** Otherwise it goes on with the better of the two. */
  lemma SearchGoes(c: Conf, w: seq<byte>, prev: seq<nat>, a: nat, limit: nat, nice: nat, cur: nat, chain: nat, b: Best)
    requires b.len > 0 && !(b.len < Tried(w, a, cur, b.len) && nice <= Tried(w, a, cur, b.len))
    ensures var best := if b.len < Tried(w, a, cur, b.len) then Best(Tried(w, a, cur, b.len), cur) else b;
      Search(c, w, prev, a, limit, nice, cur, chain, b) ==
      if After(c, prev, cur) > limit && chain > 1
      then Search(c, w, prev, a, limit, nice, After(c, prev, cur), chain - 1, best) else best
  {
    hide Tried, After;
  }

  lemma AfterIs(c: Conf, prev: seq<nat>, cur: nat)
    ensures After(c, prev, cur) == if Slot(c, cur) < |prev| then prev[Slot(c, cur)] else 0
  {
    hide Slot;
  }

  lemma LongestIs(c: Conf, w: seq<byte>, prev: seq<nat>, a: nat, lookahead: nat, cur: nat, b: Best)
    ensures Longest(c, w, prev, a, lookahead, cur, b) ==
            Search(c, w, prev, a, if a > MaxDist(c) >= 0 then a - MaxDist(c) else 0,
                   if c.nice > lookahead then lookahead else c.nice, cur,
                   if b.len >= c.good then c.chain / 4 else c.chain, b)
  {
    hide Search;
  }

  // ---- what is done with it ----

  const WORD: nat := 0x1_0000_0000

  /** Matches of length 3 are discarded when they are farther away. */
  const TOO_FAR: nat := 4096

  /** Subtraction of 32-bit unsigned numbers. */
  function Sub32(x: nat, y: nat): (r: nat)
    ensures x < WORD ==> r < WORD
    ensures y <= x ==> r == x - y
    ensures x < y < WORD ==> r == x + WORD - y
  {
    if y <= x then x - y else if y <= x + WORD then x + WORD - y else 0
  }

  function CutBest(b: Best, lookahead: nat): Best { Best(Cut(b.len, lookahead), b.start) }

  lemma CutIs(b: Best, lookahead: nat)
    ensures CutBest(b, lookahead) == Best(Cut(b.len, lookahead), b.start)
    ensures Cut(b.len, lookahead) == if b.len <= lookahead then b.len else lookahead
  {
  }

  /** Is there a string to begin with that is near enough? */
  predicate Near(c: Conf, a: nat, h: nat) { 1 <= h <= a <= h + MaxDist(c) }

  /** deflate_fast looks for any match, unless the chain is empty, too far away or not wanted. */
  function FastBest(c: Conf, w: seq<byte>, prev: seq<nat>, a: nat, lookahead: nat, h: nat, m: Best): Best {
    if Near(c, a, h) && c.strategy != HUFFMAN_ONLY
    then CutBest(Longest(c, w, prev, a, lookahead, h, Best(2, m.start)), lookahead) else m
  }

  /** Short matches are not worth while for filtered data, or when they are far away. */
  function Dropped(c: Conf, a: nat, b: Best): Best {
    if b.len <= 5 && (c.strategy == FILTERED || (b.len == 3 && Sub32(a, b.start) > TOO_FAR)) then Best(2, b.start)
    else b
  }

  /** deflate_slow looks for a match longer than the one before, unless that is long enough. */
  function SlowBest(c: Conf, w: seq<byte>, prev: seq<nat>, a: nat, lookahead: nat, h: nat, m: Best): Best {
    if Near(c, a, h) && m.len < c.lazy && c.strategy != HUFFMAN_ONLY
    then Dropped(c, a, CutBest(Longest(c, w, prev, a, lookahead, h, m), lookahead)) else Best(2, m.start)
  }

  /** The token for a match at index a, or for the byte there when the match is too short. */
  function TokenOf(a: nat, b: Best, lit: byte): Token {
    if b.len >= 3 then Match(Sub32(a, b.start), b.len) else Literal(lit)
  }

  /** The match before is taken if it is one and the new one is not longer. */
  predicate Adopted(m: Best, b: Best) { m.len >= 3 && b.len <= m.len }

  /** ... and otherwise the byte before becomes a literal, if it waits. */
  function SlowTokens(before: nat, waits: bool, m: Best, b: Best, lit: byte): seq<Token> {
    if Adopted(m, b) then [TokenOf(before, m, lit)] else if waits then [Literal(lit)] else []
  }

  // ---- the longest of the strings tried ----

  /** The candidates that a search comes to unless it stops early. */
  function Visited(c: Conf, prev: seq<nat>, limit: nat, cur: nat, chain: nat): seq<nat>
    decreases chain
  {
    if After(c, prev, cur) > limit && chain > 1
    then [cur] + Visited(c, prev, limit, After(c, prev, cur), chain - 1) else [cur]
  }

  lemma VisitsFirst(c: Conf, prev: seq<nat>, limit: nat, cur: nat, chain: nat)
    ensures cur in Visited(c, prev, limit, cur, chain)
  {
    hide After;
  }

  lemma {:induction false} AgreedLong(w: seq<byte>, a: nat, b: nat, k: nat, n: nat)
    requires k <= n <= MAX_MATCH && Same(w, a, b, n)
    ensures Agreed(w, a, b, k) >= n
    decreases n - k
  {
    hide EqAt;
    if k < n {
      AgreedLong(w, a, b, k + 1, n);
    }
  }

  lemma TriedLong(w: seq<byte>, a: nat, cur: nat, best: nat, n: nat)
    requires 0 < best < n <= MAX_MATCH && Same(w, a, cur, n)
    ensures Tried(w, a, cur, best) >= n
  {
    hide EqAt, Agreed;
    assert EqAt(w, a, cur, best) && EqAt(w, a, cur, best - 1) && EqAt(w, a, cur, 0) && EqAt(w, a, cur, 1);
    if n >= 3 {
      AgreedLong(w, a, cur, 3, n);
    }
  }

  /** A search finds no less than any candidate that it comes to offers, or else a better match that is good enough. */
  lemma {:induction false} SearchFinds(c: Conf, w: seq<byte>, prev: seq<nat>, a: nat, limit: nat, nice: nat, cur: nat,
                                       chain: nat, b: Best, v: nat, n: nat)
    requires b.len > 0 && v in Visited(c, prev, limit, cur, chain)
    requires n <= MAX_MATCH && Same(w, a, v, n)
    ensures var r := Search(c, w, prev, a, limit, nice, cur, chain, b);
      n <= r.len || (b.len < r.len && nice <= r.len)
    decreases chain
  {
    hide Same, Tried, After;
    var m := Tried(w, a, cur, b.len);
    if v == cur && b.len < n {
      TriedLong(w, a, cur, b.len, n);
    }
    if !(m > b.len && m >= nice) && After(c, prev, cur) > limit && chain > 1 && v != cur {
      SearchFinds(c, w, prev, a, limit, nice, After(c, prev, cur), chain - 1, Better(b, m, cur), v, n);
    }
  }

  /** ... and what it finds is the match before, or a longer one of a candidate that it comes to. */
  lemma {:induction false} SearchFound(c: Conf, w: seq<byte>, prev: seq<nat>, a: nat, limit: nat, nice: nat, cur: nat,
                                       chain: nat, b: Best)
    ensures var r := Search(c, w, prev, a, limit, nice, cur, chain, b);
      r == b || (r.len > b.len && r.start in Visited(c, prev, limit, cur, chain) && r.len == Agreed(w, a, r.start, 3))
    decreases chain
  {
    hide After, Agreed, EqAt;
    var m := Tried(w, a, cur, b.len);
    if !(m > b.len && m >= nice) && After(c, prev, cur) > limit && chain > 1 {
      SearchFound(c, w, prev, a, limit, nice, After(c, prev, cur), chain - 1, Better(b, m, cur));
    }
  }

  /** How many strings with this key are inserted between p and e. */
  ghost function Ahead(c: Conf, all: seq<byte>, ins: set<nat>, key: nat, p: nat, e: nat): nat
    decreases e
  {
    if e <= p + 1 then 0
    else Ahead(c, all, ins, key, p, e - 1) + if e - 1 in ins && HashAt(c, all, e - 1) == key then 1 else 0
  }

  /** If cur is the last one before e, it is one of them and the others come before it. */
  lemma {:induction false} AheadLess(c: Conf, all: seq<byte>, q: Chains, key: nat, p: nat, cur: nat, e: nat)
    requires p < q.slid + cur && cur < e && In(q, cur) && HashAt(c, all, q.slid + cur) == key
    requires NoneBetween(c, all, q, cur, e, key)
    ensures Ahead(c, all, q.ins, key, p, q.slid + e) == Ahead(c, all, q.ins, key, p, q.slid + cur) + 1
    decreases e
  {
    hide HashAt;
    if cur < e - 1 {
      AheadLess(c, all, q, key, p, cur, e - 1);
      assert In(q, e - 1) ==> HashAt(c, all, q.slid + (e - 1)) != key;
    }
  }

  /** The strings that a search comes to are the last ones inserted with the key, as far back as limit. */
  lemma {:induction false} VisitsAll(c: Conf, all: seq<byte>, s: Core, limit: nat, cur: nat, e: nat, chain: nat, i: nat)
    requires CoreOK(c, all, s, 1) && Candidate(c, all, s, cur) && cur < e <= s.strstart
    requires limit == if s.strstart > MaxDist(c) then s.strstart - MaxDist(c) else 0
    requires limit < i <= cur && In(s.q, i)
    requires HashAt(c, all, s.q.slid + i) == HashAt(c, all, s.q.slid + s.strstart)
    requires NoneBetween(c, all, s.q, cur, e, HashAt(c, all, s.q.slid + s.strstart))
    requires Ahead(c, all, s.q.ins, HashAt(c, all, s.q.slid + s.strstart), s.q.slid + i, s.q.slid + e) < chain
    ensures i in Visited(c, s.q.prev, limit, cur, chain)
    decreases chain
  {
    hide HashAt, Slot, ChainsOK, WinOK, Primed, Ahead;
    if i < cur {
      var key := HashAt(c, all, s.q.slid + s.strstart);
      AheadLess(c, all, s.q, key, s.q.slid + i, cur, e);
      CoreFacts(c, all, s, 1);
      InBytes(c, all, s.q, cur);
      FollowLink(c, all, s.q, cur);
      NextCandidate(c, all, s, cur);
      var v := s.q.prev[Slot(c, cur)];
      assert i <= v;
      VisitsAll(c, all, s, limit, v, cur, chain - 1, i);
    }
  }

  /**
   * A string inserted before the one at pos that longest_match looks at if it looks
   * at that many; the first of them may be one byte farther away than the others.
   */
  ghost predicate Reached(c: Conf, all: seq<byte>, ins: set<nat>, slid: nat, p: nat, pos: nat, tries: nat) {
    var n := Ahead(c, all, ins, HashAt(c, all, pos), p, pos);
    p in ins && slid < p < pos <= p + MaxDist(c) && n < tries && (n > 0 ==> pos < p + MaxDist(c))
  }

  /** How many strings longest_match looks at, given the length of the match that it has to beat. */
  function Tries(c: Conf, len: nat): nat { if len >= c.good then c.chain / 4 else c.chain }

  /** A length that is long enough to stop at. */
  function Nice(c: Conf, lookahead: nat): nat { if c.nice > lookahead then lookahead else c.nice }

  /** The string at pos agrees with an earlier one that is looked at, for n bytes of the input. */
  ghost predicate Offered(c: Conf, all: seq<byte>, ins: set<nat>, slid: nat, p: nat, pos: nat, tries: nat, n: nat) {
    Reached(c, all, ins, slid, p, pos, tries) && 3 <= n <= MAX_MATCH && Agree(all, pos, pos - p, n)
  }

  lemma AgreeKeys(c: Conf, all: seq<byte>, p: nat, pos: nat, n: nat)
    requires p < pos && 3 <= n && Agree(all, pos, pos - p, n)
    ensures HashAt(c, all, p) == HashAt(c, all, pos)
  {
    hide Hash3;
    assert all[pos] == all[pos - (pos - p)] && all[pos + 1] == all[pos + 1 - (pos - p)];
    assert all[pos + 2] == all[pos + 2 - (pos - p)];
  }

  lemma AgreeSame(c: Conf, all: seq<byte>, w: seq<byte>, slid: nat, m: nat, i: nat, a: nat, n: nat)
    requires WinOK(c, all, w, slid, m) && i < a && a + n <= m && Agree(all, slid + a, a - i, n)
    ensures Same(w, a, i, n)
  {
    forall j: nat | j < n
      ensures EqAt(w, a, i, j)
    {
      WinByte(c, all, w, slid, m, a + j);
      WinByte(c, all, w, slid, m, i + j);
      assert all[slid + a + j] == all[slid + a + j - (a - i)];
    }
  }

  /** The chain of an inserted string starts with the last one inserted before it with the same key. */
  ghost predicate Heads(c: Conf, all: seq<byte>, s: Core, cur: nat) {
    Candidate(c, all, s, cur) && NoneBetween(c, all, s.q, cur, s.strstart, HashAt(c, all, s.q.slid + s.strstart))
  }

  /**
   * If any of the last strings inserted with the same key offers more than the match before,
   * a length r is no less than that, or else longer than the match before and long enough to stop at.
   */
  ghost predicate NoneMissed(c: Conf, all: seq<byte>, ins: set<nat>, slid: nat, pos: nat, ahead: nat, least: nat,
                             r: nat)
  {
    forall p: nat, k: nat | Offered(c, all, ins, slid, p, pos, Tries(c, least), k) && least < k <= ahead ::
      k <= r || (least < r && Nice(c, ahead) <= r)
  }

  /** longest_match misses none. */
  lemma LongestFindsAll(c: Conf, all: seq<byte>, s: Core, lookahead: nat, cur: nat, b: Best)
    requires CoreOK(c, all, s, 1) && Heads(c, all, s, cur) && b.len > 0 && s.strstart + lookahead == s.n
    ensures var r := Cut(Longest(c, s.w, s.q.prev, s.strstart, lookahead, cur, b).len, lookahead);
      NoneMissed(c, all, s.q.ins, s.q.slid, s.q.slid + s.strstart, lookahead, b.len, r)
  {
    hide CoreOK, Heads, Offered, Longest, Cut, Nice, Tries;
    var ins, slid, pos, tries := s.q.ins, s.q.slid, s.q.slid + s.strstart, Tries(c, b.len);
    forall p: nat, k: nat | Offered(c, all, ins, slid, p, pos, tries, k) && k <= lookahead
      ensures var r := Cut(Longest(c, s.w, s.q.prev, s.strstart, lookahead, cur, b).len, lookahead);
        k <= r || (b.len < r && Nice(c, lookahead) <= r)
    {
      LongestFinds(c, all, s, lookahead, cur, b, p, k);
    }
  }

  lemma LongestFinds(c: Conf, all: seq<byte>, s: Core, lookahead: nat, cur: nat, b: Best, p: nat, n: nat)
    requires CoreOK(c, all, s, 1) && Heads(c, all, s, cur) && b.len > 0
    requires s.strstart + lookahead == s.n && n <= lookahead
    requires Offered(c, all, s.q.ins, s.q.slid, p, s.q.slid + s.strstart, Tries(c, b.len), n)
    ensures var r := Cut(Longest(c, s.w, s.q.prev, s.strstart, lookahead, cur, b).len, lookahead);
      n <= r || (b.len < r && Nice(c, lookahead) <= r)
  {
    hide HashAt, Slot, ChainsOK, Primed, Ahead, Search, WinOK, Same, Visited, EqAt;
    CoreFacts(c, all, s, 1);
    var i, pos := p - s.q.slid, s.q.slid + s.strstart;
    AgreeKeys(c, all, p, pos, n);
    AgreeSame(c, all, s.w, s.q.slid, s.n, i, s.strstart, n);
    assert i <= cur by {
      assert In(s.q, i);
    }
    var limit := if s.strstart > MaxDist(c) then s.strstart - MaxDist(c) else 0;
    if i < cur {
      AheadLess(c, all, s.q, HashAt(c, all, pos), p, cur, s.strstart);
      VisitsAll(c, all, s, limit, cur, s.strstart, Tries(c, b.len), i);
    } else {
      VisitsFirst(c, s.q.prev, limit, cur, Tries(c, b.len));
    }
    SearchFinds(c, s.w, s.q.prev, s.strstart, limit, Nice(c, lookahead), cur, Tries(c, b.len), b, i, n);
  }

  lemma {:induction false} AheadSame(c: Conf, all: seq<byte>, ins: set<nat>, ins': set<nat>, key: nat, p: nat, e: nat)
    requires forall j | j < e :: j in ins <==> j in ins'
    ensures Ahead(c, all, ins, key, p, e) == Ahead(c, all, ins', key, p, e)
    decreases e
  {
    hide HashAt;
    if e > p + 1 {
      AheadSame(c, all, ins, ins', key, p, e - 1);
    }
  }

  /** One of the strings that are looked at agrees with the one at pos for three bytes. */
  ghost predicate Promising(c: Conf, all: seq<byte>, ins: set<nat>, slid: nat, pos: nat) {
    exists p: nat :: Offered(c, all, ins, slid, p, pos, Tries(c, 2), 3)
  }

  lemma MissedNone(c: Conf, all: seq<byte>, ins: set<nat>, slid: nat, pos: nat, ahead: nat, r: nat)
    requires NoneMissed(c, all, ins, slid, pos, ahead, 2, r) && ahead >= 3
    ensures Promising(c, all, ins, slid, pos) ==> r >= 3
  {
    hide Offered, Tries;
  }

  /** The string itself makes no difference when it is inserted. */
  lemma MissedSame(c: Conf, all: seq<byte>, ins: set<nat>, slid: nat, pos: nat, ahead: nat, least: nat, r: nat)
    requires NoneMissed(c, all, ins + {pos}, slid, pos, ahead, least, r)
    ensures NoneMissed(c, all, ins, slid, pos, ahead, least, r)
  {
    hide HashAt, Ahead, Agree;
    forall p: nat, k: nat | Offered(c, all, ins, slid, p, pos, Tries(c, least), k) && least < k <= ahead
      ensures k <= r || (least < r && Nice(c, ahead) <= r)
    {
      AheadSame(c, all, ins, ins + {pos}, HashAt(c, all, pos), p, pos);
      assert Offered(c, all, ins + {pos}, slid, p, pos, Tries(c, least), k);
    }
  }

  /** Where nothing longer is offered, nothing is missed by dropping what is no longer. */
  lemma MissedDropped(c: Conf, all: seq<byte>, ins: set<nat>, slid: nat, pos: nat, ahead: nat, least: nat, r: nat,
                      r': nat)
    requires r <= least && NoneMissed(c, all, ins, slid, pos, ahead, least, r)
    ensures NoneMissed(c, all, ins, slid, pos, ahead, least, r')
  {
    hide Offered;
  }

  /** If the head of the chain is too far away, no string is offered. */
  lemma NoneOffered(c: Conf, all: seq<byte>, q: Chains, i: nat, ahead: nat, least: nat, r: nat)
    requires c.Ok() && ChainsOK(c, all, q) && q.top <= i
    ensures HashAt(c, all, q.slid + i) < |q.head|
    ensures !Near(c, i, q.head[HashAt(c, all, q.slid + i)]) ==>
      NoneMissed(c, all, q.ins, q.slid, q.slid + i, ahead, least, r)
  {
    hide HashAt, Ahead, Agree, Conf.Ok;
    KeyBelow(c, all, q.slid + i, q);
    var h, pos, tries := HashAt(c, all, q.slid + i), q.slid + i, Tries(c, least);
    assert HeadFine(c, all, q, h);
    forall p: nat, k: nat | Offered(c, all, q.ins, q.slid, p, pos, tries, k)
      ensures Near(c, i, q.head[h])
    {
      AgreeKeys(c, all, p, pos, k);
      assert q.slid + (p - q.slid) in q.ins && In(q, p - q.slid);
    }
  }

  // ---- bytes beyond the input ----

  /** The windows agree below n. */
  predicate Alike(w: seq<byte>, v: seq<byte>, n: nat) {
    |w| == |v| && n <= |w| && forall i | 0 <= i < n :: w[i] == v[i]
  }

  lemma EqAlike(w: seq<byte>, v: seq<byte>, n: nat, a: nat, cur: nat, j: nat)
    requires Alike(w, v, n) && cur <= a && a + j < n
    ensures EqAt(w, a, cur, j) <==> EqAt(v, a, cur, j)
  {
  }

  /** Two comparisons give the same as far as the input goes. */
  lemma {:induction false} AgreedAlike(w: seq<byte>, v: seq<byte>, a: nat, cur: nat, lookahead: nat, k: nat)
    requires Alike(w, v, a + lookahead) && cur <= a && k <= MAX_MATCH
    ensures var m, n := Agreed(w, a, cur, k), Agreed(v, a, cur, k); m == n || (m >= lookahead && n >= lookahead)
    decreases MAX_MATCH - k
  {
    hide EqAt, Alike;
    if k < MAX_MATCH && k < lookahead {
      EqAlike(w, v, a + lookahead, a, cur, k);
      AgreedAlike(w, v, a, cur, lookahead, k + 1);
    }
  }

  lemma TriedAlike(w: seq<byte>, v: seq<byte>, a: nat, cur: nat, lookahead: nat, best: nat)
    requires Alike(w, v, a + lookahead) && cur <= a && 0 < best < lookahead
    ensures var m, n := Tried(w, a, cur, best), Tried(v, a, cur, best); m == n || (m >= lookahead && n >= lookahead)
  {
    hide EqAt, Alike, Agreed;
    EqAlike(w, v, a + lookahead, a, cur, best);
    EqAlike(w, v, a + lookahead, a, cur, best - 1);
    EqAlike(w, v, a + lookahead, a, cur, 0);
    EqAlike(w, v, a + lookahead, a, cur, 1);
    AgreedAlike(w, v, a, cur, lookahead, 3);
  }

  /** All links lead to indices not beyond a. */
  predicate Backwards(prev: seq<nat>, a: nat) { forall i | 0 <= i < |prev| :: prev[i] <= a }

  lemma {:induction false} SearchAlike(c: Conf, w: seq<byte>, v: seq<byte>, prev: seq<nat>, a: nat, lookahead: nat,
                                       limit: nat, nice: nat, cur: nat, chain: nat, b: Best)
    requires Alike(w, v, a + lookahead) && Backwards(prev, a) && cur <= a && nice <= lookahead
    requires 0 < b.len < lookahead
    ensures var p, q := Search(c, w, prev, a, limit, nice, cur, chain, b),
      Search(c, v, prev, a, limit, nice, cur, chain, b);
      p.start == q.start && Cut(p.len, lookahead) == Cut(q.len, lookahead)
    decreases chain
  {
    hide EqAt, Alike, Agreed, Tried, Slot;
    TriedAlike(w, v, a, cur, lookahead, b.len);
    var n := Tried(w, a, cur, b.len);
    if n < lookahead && After(c, prev, cur) > limit && chain > 1 {
      SearchAlike(c, w, v, prev, a, lookahead, limit, nice, After(c, prev, cur), chain - 1, Better(b, n, cur));
    }
  }

  /**
   * The length that longest_match returns, and where the match is if it is longer than
   * the one before, depend only on the input: the bytes of the window beyond strstart
   * + lookahead, which may be left from before or never written, do not matter.
   */
  lemma LongestAlike(c: Conf, w: seq<byte>, v: seq<byte>, prev: seq<nat>, a: nat, lookahead: nat, cur: nat, b: Best)
    requires Alike(w, v, a + lookahead) && Backwards(prev, a) && cur <= a && b.len > 0
    ensures var p, q := Longest(c, w, prev, a, lookahead, cur, b), Longest(c, v, prev, a, lookahead, cur, b);
      && Cut(p.len, lookahead) == Cut(q.len, lookahead)
      && (Cut(p.len, lookahead) > b.len ==> p.start == q.start)
  {
    hide EqAt, Alike, Search;
    if b.len < lookahead {
      SearchAlike(c, w, v, prev, a, lookahead, if a > MaxDist(c) >= 0 then a - MaxDist(c) else 0,
                  if c.nice > lookahead then lookahead else c.nice, cur,
                  if b.len >= c.good then c.chain / 4 else c.chain, b);
    }
  }

  /** The links of a sound state lead back. */
  lemma LinksBackwards(c: Conf, all: seq<byte>, s: Core)
    requires CoreOK(c, all, s, 1)
    ensures Backwards(s.q.prev, s.strstart)
  {
    hide WinOK, Primed, HashAt, Slot;
    CoreFacts(c, all, s, 1);
  }

  /** Two sound states at the same place of one input have the same bytes up to the end of the input. */
  lemma WindowsAlike(c: Conf, all: seq<byte>, s: Core, t: Core)
    requires CoreOK(c, all, s, 1) && CoreOK(c, all, t, 1) && s.n == t.n && s.q.slid == t.q.slid
    ensures Alike(s.w, t.w, s.n)
  {
    hide ChainsOK, Primed;
    CoreFacts(c, all, s, 1);
    CoreFacts(c, all, t, 1);
    forall i | 0 <= i < s.n
      ensures s.w[i] == t.w[i]
    {
      assert s.w[..s.n][i] == t.w[..t.n][i];
    }
  }
}
