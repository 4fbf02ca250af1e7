/** The window, the key and the chains of deflate.c together, as values. */
module DeflateCore {
  import opened Arith
  import opened Stream
  import opened Lz77
  import opened HashChains

  /** The first n bytes of the window are the input from slid on. */
  predicate WinOK(c: Conf, all: seq<byte>, w: seq<byte>, slid: nat, n: nat) {
    |w| == 2 * c.wsize && n <= 2 * c.wsize && slid + n <= |all| && forall i | 0 <= i < n :: w[i] == all[slid + i]
  }

  /** The window, the chains, the next string, the end of the input in the window, and the key. */
  datatype Core = Core(w: seq<byte>, q: Chains, strstart: nat, n: nat, hash: nat)

  /**
   * k is 1 when the string at strstart is inserted already and 0 when it is not;
   * the key is ready for the string that comes next to be inserted, unless k is 2.
   */
  ghost predicate CoreOK(c: Conf, all: seq<byte>, s: Core, k: nat) {
    && c.Ok() && WinOK(c, all, s.w, s.q.slid, s.n) && ChainsOK(c, all, s.q)
    && s.strstart <= s.n && s.q.top <= s.strstart + (if k == 1 then 1 else 0)
    && (k < 2 && s.strstart + 3 <= s.n ==> Primed(c, all, s.q.slid + s.strstart + k, s.hash))
  }

  lemma CoreFacts(c: Conf, all: seq<byte>, s: Core, k: nat)
    requires CoreOK(c, all, s, k)
    ensures c.Ok() && 512 <= c.wsize <= 32768 && |s.w| == 2 * c.wsize && s.n <= 2 * c.wsize && s.q.slid + s.n <= |all|
    ensures WinOK(c, all, s.w, s.q.slid, s.n) && ChainsOK(c, all, s.q) && s.q.top <= s.strstart + k && s.strstart <= s.n
  {
    hide ChainsOK, Primed, Pow2;
    Sizes(c);
  }

  lemma WinByte(c: Conf, all: seq<byte>, w: seq<byte>, slid: nat, n: nat, i: nat)
    requires i < n && WinOK(c, all, w, slid, n)
    ensures i < |w| && slid + i < |all| && w[i] == all[slid + i]
  {
  }

  /** INSERT_STRING for the string at strstart. */
  lemma CoreInsert(c: Conf, all: seq<byte>, s: Core, h: nat)
    requires s.strstart + 3 <= s.n && s.strstart + 2 < |s.w| && h == Update(c, s.hash, s.w[s.strstart + 2])
    requires CoreOK(c, all, s, 0)
    ensures h == HashAt(c, all, s.q.slid + s.strstart)
    ensures h < |s.q.head| == c.hsize && Slot(c, s.strstart) < |s.q.prev| == c.wsize
    ensures CoreOK(c, all, s.(q := Inserted(c, all, s.q, s.strstart, h), hash := h), 1)
    ensures Link(c, all, s.q, s.q.head[h], s.strstart, h)
  {
    hide Update, HashAt, Slot, Pow2, Primed, ChainsOK, WinOK, Conf.Ok;
    var p := s.q.slid + s.strstart;
    CoreFacts(c, all, s, 0);
    WinByte(c, all, s.w, s.q.slid, s.n, s.strstart + 2);
    PrimedNext(c, all, p, s.hash);
    ChainsInsert(c, all, s.q, s.strstart);
    ChainsLens(c, all, s.q);
  }

  lemma ChainsLens(c: Conf, all: seq<byte>, q: Chains)
    requires ChainsOK(c, all, q)
    ensures |q.head| == c.hsize && |q.prev| == c.wsize
  {
  }

  /** On to the next string. */
  lemma CoreNext(c: Conf, all: seq<byte>, s: Core, k: nat)
    requires s.strstart < s.n && (k == 1 || s.strstart + 3 > s.n) && CoreOK(c, all, s, k)
    ensures CoreOK(c, all, s.(strstart := s.strstart + 1), 0)
  {
    hide Primed, ChainsOK, WinOK, Conf.Ok;
  }

  /** On past m bytes with the key started afresh. */
  lemma CoreJump(c: Conf, all: seq<byte>, s: Core, k: nat, m: nat, h: nat)
    requires 1 <= m && s.strstart + m <= s.n
    requires s.strstart + m + 3 <= s.n && s.n <= |s.w| ==> h == Update(c, s.w[s.strstart + m], s.w[s.strstart + m + 1])
    requires CoreOK(c, all, s, k)
    ensures CoreOK(c, all, s.(strstart := s.strstart + m, hash := h), 0)
  {
    hide Primed, ChainsOK, WinOK, Update, Pow2;
    CoreFacts(c, all, s, k);
    if s.strstart + m + 3 <= s.n {
      KeyStart(c, all, s.w, s.q.slid, s.n, s.strstart + m);
    }
  }

  lemma KeyStart(c: Conf, all: seq<byte>, w: seq<byte>, slid: nat, n: nat, i: nat)
    requires i + 1 < n && c.Ok() && WinOK(c, all, w, slid, n)
    ensures i + 1 < |w| && Primed(c, all, slid + i, Update(c, w[i], w[i + 1]))
  {
    hide Primed, Update, Pow2;
    WinByte(c, all, w, slid, n, i);
    WinByte(c, all, w, slid, n, i + 1);
    PrimedStart(c, all, slid + i);
  }

  /** Without the key, any next string from the last one inserted on will do. */
  lemma CoreMove(c: Conf, all: seq<byte>, s: Core, strstart: nat)
    requires s.q.top <= strstart <= s.n && CoreOK(c, all, s, 2)
    ensures CoreOK(c, all, s.(strstart := strstart), 2)
  {
    hide ChainsOK, WinOK, Conf.Ok;
  }

  /** The key is not needed while less than three bytes are ahead. */
  lemma CoreKey(c: Conf, all: seq<byte>, s: Core)
    ensures CoreOK(c, all, s, 0) ==> CoreOK(c, all, s, 2)
    ensures CoreOK(c, all, s, 2) && s.strstart + 3 > s.n ==> CoreOK(c, all, s, 0)
    ensures CoreOK(c, all, s, 2) ==> s.q.top <= s.strstart
  {
    hide ChainsOK, WinOK, Conf.Ok, Primed;
  }

  /** zmemcpy of the upper half of the window to the lower. */
  predicate HalfMoved(was: seq<byte>, now: seq<byte>, wsize: nat) {
    |now| == |was| == 2 * wsize && forall i | 0 <= i < wsize :: now[i] == was[i + wsize]
  }

  /** The slide of fill_window. */
  lemma CoreSlide(c: Conf, all: seq<byte>, s: Core, s': Core)
    requires s.strstart >= c.wsize && HalfMoved(s.w, s'.w, c.wsize)
    requires SlidTable(s.q.head, s'.q.head, c.wsize) && SlidTable(s.q.prev, s'.q.prev, c.wsize)
    requires s'.q.ins == s.q.ins && s'.q.slid == s.q.slid + c.wsize && s'.q.floor == s.q.floor
    requires s'.q.top == s.strstart - c.wsize == s'.strstart && s'.n + c.wsize == s.n && s'.hash == s.hash
    requires CoreOK(c, all, s, 0)
    ensures CoreOK(c, all, s', 0)
  {
    hide Primed, ChainsOK, SlidTable, Pow2;
    CoreFacts(c, all, s, 0);
    ChainsSkip(c, all, s.q, s.strstart);
    ChainsSlide(c, all, s.q.(top := s.strstart), s'.q);
    WinSlide(c, all, s.w, s'.w, s.q.slid, s.n);
  }

  lemma WinSlide(c: Conf, all: seq<byte>, w: seq<byte>, w': seq<byte>, slid: nat, n: nat)
    requires c.wsize <= n && WinOK(c, all, w, slid, n) && HalfMoved(w, w', c.wsize)
    ensures WinOK(c, all, w', slid + c.wsize, n - c.wsize)
  {
    forall i | 0 <= i < n - c.wsize
      ensures w'[i] == all[slid + c.wsize + i]
    {
      assert w[i + c.wsize] == all[slid + (i + c.wsize)];
    }
  }

  /** m bytes of input from position p on are put at index n. */
  predicate PutIn(was: seq<byte>, now: seq<byte>, n: nat, all: seq<byte>, p: nat, m: nat) {
    && n + m <= |was| == |now| && p + m <= |all| && now[..n] == was[..n]
    && forall i | n <= i < n + m :: now[i] == all[p + i - n]
  }

  /** read_buf, and the key started afresh once there are three bytes. */
  lemma CoreRead(c: Conf, all: seq<byte>, s: Core, w: seq<byte>, m: nat, h: nat)
    requires PutIn(s.w, w, s.n, all, s.q.slid + s.n, m) && CoreOK(c, all, s, 0)
    requires s.strstart + 3 <= s.n + m && s.n + m <= |w| ==> h == Update(c, w[s.strstart], w[s.strstart + 1])
    ensures CoreOK(c, all, s.(w := w, n := s.n + m, hash := h), 0)
  {
    hide Primed, ChainsOK, Update, Pow2;
    CoreFacts(c, all, s, 0);
    WinRead(c, all, s.w, s.q.slid, s.n, w, m);
    if s.strstart + 3 <= s.n + m {
      KeyStart(c, all, w, s.q.slid, s.n + m, s.strstart);
    }
  }

  lemma WinRead(c: Conf, all: seq<byte>, was: seq<byte>, slid: nat, n: nat, w: seq<byte>, m: nat)
    requires WinOK(c, all, was, slid, n) && PutIn(was, w, n, all, slid + n, m)
    ensures WinOK(c, all, w, slid, n + m)
  {
    forall i | 0 <= i < n + m
      ensures w[i] == all[slid + i]
    {
      if i < n {
        assert w[..n][i] == was[..n][i];
      }
    }
  }

  /** CLEAR_HASH, when the string at strstart is not inserted yet. */
  lemma CoreClear(c: Conf, all: seq<byte>, s: Core, q: Chains, k: nat)
    requires k != 1 && CoreOK(c, all, s, k) && |q.head| == |s.q.head|
    requires q == Chains(q.head, s.q.prev, {}, s.q.slid, s.strstart, s.q.slid + s.strstart)
    requires forall h | 0 <= h < |q.head| :: q.head[h] == 0
    ensures CoreOK(c, all, s.(q := q), k)
  {
    hide Primed, ChainsOK, Pow2, Conf.Ok;
    ChainsCleared(c, all, s.q, q);
  }

  /** The state of a new stream. */
  lemma CoreNew(c: Conf, all: seq<byte>, s: Core)
    requires c.Ok() && |s.w| == 2 * c.wsize && s.n == 0 && s.strstart == 0
    requires |s.q.head| == c.hsize && |s.q.prev| == c.wsize && s.q.top == 0 && s.q.ins == {} && s.q.slid == 0
    requires s.q.floor == 0
    requires forall h | 0 <= h < |s.q.head| :: s.q.head[h] == 0
    requires forall j | 0 <= j < |s.q.prev| :: s.q.prev[j] == 0
    ensures CoreOK(c, all, s, 0)
  {
    hide ChainsOK, Pow2;
    ChainsEmpty(c, all, s.q);
  }

  // ---- matches ----

  function MaxDist(c: Conf): int { c.wsize - MIN_LOOKAHEAD }

  /** cur is the index of an inserted string near enough with the same key as the one at strstart. */
  ghost predicate Candidate(c: Conf, all: seq<byte>, s: Core, cur: nat) {
    && 1 <= cur < s.strstart && s.strstart <= cur + MaxDist(c) && In(s.q, cur)
    && HashAt(c, all, s.q.slid + cur) == HashAt(c, all, s.q.slid + s.strstart)
  }

  /** The head of the chain is a candidate unless it is NIL or too far. */
  lemma HeadCandidate(c: Conf, all: seq<byte>, s: Core, q: Chains, v: nat)
    requires Link(c, all, q, v, s.strstart, HashAt(c, all, q.slid + s.strstart)) && q.slid == s.q.slid
    requires q.ins <= s.q.ins
    requires v != 0 && s.strstart <= v + MaxDist(c)
    ensures Candidate(c, all, s, v)
  {
    hide HashAt;
  }

  /** So is the string that a candidate is linked to. */
  lemma NextCandidate(c: Conf, all: seq<byte>, s: Core, cur: nat)
    requires Candidate(c, all, s, cur) && CoreOK(c, all, s, 1)
    ensures Slot(c, cur) < |s.q.prev|
    ensures var v := s.q.prev[Slot(c, cur)]; v != 0 && s.strstart <= v + MaxDist(c) ==> Candidate(c, all, s, v)
  {
    hide HashAt, Slot, Pow2, ChainsOK, WinOK, Primed;
    CoreFacts(c, all, s, 1);
    InBytes(c, all, s.q, cur);
    FollowLink(c, all, s.q, cur);
  }

  /** Whatever the slot of cur holds, it is an index not after strstart. */
  lemma SlotBelow(c: Conf, all: seq<byte>, s: Core, cur: nat)
    requires cur <= s.strstart && cur < 2 * c.wsize && CoreOK(c, all, s, 1)
    ensures Slot(c, cur) < |s.q.prev| == c.wsize && s.q.prev[Slot(c, cur)] <= s.strstart
  {
    hide HashAt, Slot, Pow2, ChainsOK, WinOK, Primed;
    CoreFacts(c, all, s, 1);
    AnySlot(c, all, s.q, cur);
    ChainsLens(c, all, s.q);
  }

  /** A candidate comes after the tables were cleared. */
  lemma CandidateLater(c: Conf, all: seq<byte>, s: Core, cur: nat, k: nat)
    requires Candidate(c, all, s, cur) && CoreOK(c, all, s, k)
    ensures s.q.floor <= s.q.slid + cur
  {
    hide HashAt, Slot, ChainsOK, WinOK, Primed, Conf.Ok;
    InBytes(c, all, s.q, cur);
  }

  predicate EqAt(w: seq<byte>, a: nat, b: nat, j: nat) { a + j < |w| && b + j < |w| && w[a + j] == w[b + j] }

  /** The strings at a and b agree for n bytes. */
  predicate Same(w: seq<byte>, a: nat, b: nat, n: nat) { forall j: nat | j < n :: EqAt(w, a, b, j) }

  /** Two bytes that agree in strings with equal keys are followed by a third; the rest was compared. */
  lemma Compared(c: Conf, all: seq<byte>, s: Core, cur: nat, len: nat)
    requires s.strstart + 3 <= s.n && EqAt(s.w, s.strstart, cur, 0) && EqAt(s.w, s.strstart, cur, 1)
    requires forall j: nat | 3 <= j < len :: EqAt(s.w, s.strstart, cur, j)
    requires Candidate(c, all, s, cur) && CoreOK(c, all, s, 1)
    ensures Same(s.w, s.strstart, cur, len)
  {
    hide HashAt, Slot, Pow2, ChainsOK, Primed;
    CoreFacts(c, all, s, 1);
    var p, q := s.q.slid + s.strstart, s.q.slid + cur;
    WinByte(c, all, s.w, s.q.slid, s.n, s.strstart);
    WinByte(c, all, s.w, s.q.slid, s.n, s.strstart + 1);
    WinByte(c, all, s.w, s.q.slid, s.n, s.strstart + 2);
    WinByte(c, all, s.w, s.q.slid, s.n, cur);
    WinByte(c, all, s.w, s.q.slid, s.n, cur + 1);
    WinByte(c, all, s.w, s.q.slid, s.n, cur + 2);
    SameKey(c, all, p, q);
    forall j: nat | j < len
      ensures EqAt(s.w, s.strstart, cur, j)
    {
      if j == 2 {
        assert s.w[s.strstart + 2] == s.w[cur + 2];
      }
    }
  }

  /** A match in the window, as far as there is input, is one in the input. */
  lemma GenuineMatch(c: Conf, all: seq<byte>, w: seq<byte>, slid: nat, n: nat, strstart: nat, cur: nat, len: nat)
    requires cur < strstart && strstart + len <= n && Same(w, strstart, cur, len) && WinOK(c, all, w, slid, n)
    ensures Agree(all, slid + strstart, strstart - cur, len)
  {
    forall j | slid + strstart <= j < slid + strstart + len
      ensures all[j] == all[j - (strstart - cur)]
    {
      var k := j - slid - strstart;
      assert EqAt(w, strstart, cur, k);
      assert w[strstart + k] == all[slid + (strstart + k)];
      assert w[cur + k] == all[slid + (cur + k)];
    }
  }
}
