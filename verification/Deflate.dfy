/** The string matcher of deflate.c: fill_window, longest_match, deflate_fast, deflate_slow and deflate_stored. */
module DeflateMatcher {
  import opened Arith
  import opened Stream
  import opened Lz77
  import opened HashChains
  import opened DeflateCore
  import opened MatchSearch
  import opened StoredRounds
  import opened DeflateBlocks
  import opened InflateTrees

  datatype Flush = NO_FLUSH | PARTIAL_FLUSH | SYNC_FLUSH | FULL_FLUSH | FINISH

  datatype BlockState = NEED_MORE | BLOCK_DONE | FINISH_STARTED | FINISH_DONE

  class Deflate {
    const c: Conf
    const all: seq<byte>         // the whole input of the stream
    const window: array<byte>
    const prev: array<Pos>       // link to the string before with the same key
    const head: array<Pos>       // heads of the chains
    var supplied: nat            // bytes of the input that the caller has supplied
    var taken: nat               // bytes read into the window so far
    var hash: nat                // ins_h
    var strstart: nat            // start of the string to insert
    var lookahead: nat           // bytes ahead in the window
    var blockStart: int          // where the current block begins; negative once that has slid out
    var matchLength: nat
    var matchStart: nat          // a 32-bit number, which a slide may wrap
    var prevLength: nat
    var prevMatch: nat
    var matchAvailable: bool
    var syms: seq<Token>         // d_buf and l_buf
    var full: bool               // no room for output is left
    var finished: bool           // status is FINISH_STATE
    const level: Level           // the compression function of the configuration table
    ghost var slid: nat          // where window index 0 lies in the input
    ghost var ins: set<nat>      // positions inserted in the chains
    ghost var top: nat           // one past the last index inserted
    ghost var blocks: seq<Block>
    ghost var floors: seq<nat>   // positions where the history was forgotten

    ghost function Q(): Chains
      reads this, prev, head
    {
      Chains(head[..], prev[..], ins, slid, top, Last(floors))
    }

    /** The core of the state, the input in the window ending at index n. */
    ghost function Now(n: nat): Core
      reads this, window, prev, head
    {
      Core(window[..], Q(), strstart, n, hash)
    }

    ghost predicate Base()
      reads this
    {
      && c.Ok() && window.Length == 2 * c.wsize && prev.Length == c.wsize && head.Length == c.hsize && prev != head
      && taken <= supplied <= |all|
    }

    /** The window, the chains and the key are sound, the input in the window ending at index n. */
    ghost predicate Sound(n: nat, k: nat)
      reads this, window, prev, head
    {
      Base() && slid + n == taken && CoreOK(c, all, Now(n), k)
    }

    lemma Open(n: nat, k: nat)
      requires Sound(n, k)
      ensures Base() && c.Ok() && 512 <= c.wsize <= 32768 && window.Length == 2 * c.wsize && prev.Length == c.wsize
      ensures head.Length == c.hsize && prev != head && slid + n == taken <= supplied <= |all|
      ensures CoreOK(c, all, Now(n), k)
      ensures Now(n) == Core(window[..], Chains(head[..], prev[..], ins, slid, top, Last(floors)), strstart, n, hash)
      ensures Q() == Now(n).q && strstart <= n <= 2 * c.wsize && top <= strstart + k
    {
      hide CoreOK, Conf.Ok;
      CoreFacts(c, all, Now(n), k);
    }

    lemma Close(n: nat, k: nat)
      requires Base() && slid + n == taken
      requires CoreOK(c, all, Core(window[..], Chains(head[..], prev[..], ins, slid, top, Last(floors)), strstart, n,
                                   hash), k)
      ensures Sound(n, k)
    {
      hide CoreOK, Conf.Ok;
    }

    /** The chains once the string at strstart is inserted. */
    ghost function Inserting(): Chains
      reads this, prev, head
    {
      var key := HashAt(c, all, slid + strstart);
      if key < head.Length && Slot(c, strstart) < prev.Length then Inserted(c, all, Q(), strstart, key) else Q()
    }

    /** The head of the chain for the string at strstart. */
    ghost function HeadHere(): nat
      reads this, head
    {
      var key := HashAt(c, all, slid + strstart);
      if key < head.Length then head[key] else 0
    }

    lemma InsertingIs(key: nat)
      requires key == HashAt(c, all, slid + strstart) && key < head.Length && Slot(c, strstart) < prev.Length
      ensures Inserting() == Inserted(c, all, Q(), strstart, key) && HeadHere() == head[key]
    {
      hide HashAt, Slot, Inserted;
    }

    /** INSERT_STRING for the string at strstart; returns the head of its chain so far. */
    method InsertString(ghost n: nat) returns (h: nat)
      requires strstart + 3 <= n && Sound(n, 0)
      modifies head, prev, this`hash, this`ins, this`top
      ensures Sound(n, 1) && Q() == old(Inserting()) && ins == old(ins) + {slid + strstart}
      ensures h == old(HeadHere()) && h <= strstart
      ensures Near(c, strstart, h) ==> Heads(c, all, Now(n), h)
    {
      hide *;
      Open(n, 0);
      ghost var s := Now(n);
      var key := Update(c, hash, window[strstart + 2]);
      CoreInsert(c, all, s, key);
      InsertingIs(key);
      h := head[key];
      LinkBelow(c, all, s.q, h, strstart, key);
      var slot := Slot(c, strstart);
      prev[slot] := h;
      head[key] := strstart;
      hash := key;
      ins := ins + {slid + strstart};
      top := strstart + 1;
      InsertedIs(c, all, s, key, Chains(head[..], prev[..], ins, slid, top, Last(floors)));
      KeepBase();
      Close(n, 1);
      Open(n, 1);
      if Near(c, strstart, h) {
        NearIs(c, strstart, h);
        HeadsHere(c, all, Now(n), s.q, h);
      }
    }

    /**
     * The comparison in longest_match, from the fourth byte on: how far the strings
     * at strstart and cur agree, with eight comparisons between checks for the end.
     */
    method Compare(cur: nat) returns (len: nat)
      requires strstart + MIN_LOOKAHEAD <= window.Length && cur <= strstart
      ensures 3 <= len <= MAX_MATCH
      ensures forall j: nat | 3 <= j < len :: EqAt(window[..], strstart, cur, j)
      ensures len == Agreed(window[..], strstart, cur, 3)
    {
      hide Agreed;
      len := 2;
      var more := true;
      ghost var round := 0;
      while more
        invariant 2 <= len <= MAX_MATCH && (more ==> len == 2 + 8 * round && round < 32)
        invariant forall j: nat | 3 <= j < len :: EqAt(window[..], strstart, cur, j)
        invariant more && len > 2 ==> EqAt(window[..], strstart, cur, len)
        invariant !more ==> len >= 3 && (len < MAX_MATCH ==> !EqAt(window[..], strstart, cur, len))
        decreases MAX_MATCH - len, more
      {
        var i := 0;
        while i < 8 && more
          invariant i <= 8 && len == 2 + 8 * round + i && (i == 0 ==> more) && 2 <= len <= MAX_MATCH
          invariant forall j: nat | 3 <= j < len :: EqAt(window[..], strstart, cur, j)
          invariant more && len > 2 ==> EqAt(window[..], strstart, cur, len)
          invariant !more ==> len >= 3 && !EqAt(window[..], strstart, cur, len)
        {
          len := len + 1;
          i := i + 1;
          more := window[strstart + len] == window[cur + len];
        }
        more := more && len < MAX_MATCH;
        round := round + 1;
      }
      AgreedIs(window[..], strstart, cur, 3, len);
    }

    /** Is the match at index m genuine as far as the window goes? */
    ghost predicate Found(m: nat, len: nat)
      reads this, window
    {
      m < strstart && strstart <= m + MaxDist(c) && Last(floors) <= slid + m && Same(window[..], strstart, m, len)
    }

    /** One candidate: skipped (with length 0) unless it can be longer than best and starts with the same two bytes. */
    method TryMatch(cur: nat, best: nat, end1: byte, end: byte, ghost n: nat, ghost live: bool) returns (len: nat)
      requires Sound(n, 1) && cur <= strstart && strstart + MIN_LOOKAHEAD <= 2 * c.wsize == window.Length
      requires 1 <= best <= MAX_MATCH
      requires live ==> strstart + 3 <= n && Candidate(c, all, Now(n), cur)
      requires end1 == window[strstart + best - 1] && end == window[strstart + best]
      ensures len <= MAX_MATCH && (live && len > best ==> Found(cur, len))
      ensures len == Tried(window[..], strstart, cur, best)
    {
      hide *;
      MaxDistIs(c);
      TriedIs(window[..], strstart, cur, best);
      len := 0;
      if window[cur + best] == end && window[cur + best - 1] == end1
         && window[cur] == window[strstart] && window[cur + 1] == window[strstart + 1] {
        len := Compare(cur);
        if live {
          Open(n, 1);
          FirstBytes(window[..], strstart, cur);
          Compared(c, all, Now(n), cur, len);
          FoundIs(n, cur, len);
        }
      }
    }

    /** The next string of the chain. */
    method NextLink(cur: nat, limit: nat, ghost n: nat, ghost live: bool) returns (next: nat)
      requires Sound(n, 1) && cur <= strstart && strstart + MIN_LOOKAHEAD <= 2 * c.wsize
      requires live ==> Candidate(c, all, Now(n), cur)
      requires limit == if strstart > MaxDist(c) then strstart - MaxDist(c) else 0
      ensures next <= strstart && next == After(c, prev[..], cur)
      ensures live && next > limit ==> Candidate(c, all, Now(n), next)
    {
      hide *;
      Open(n, 1);
      MaxDistIs(c);
      SlotBelow(c, all, Now(n), cur);
      if live {
        NextCandidate(c, all, Now(n), cur);
      }
      next := prev[Slot(c, cur)];
      AfterIs(c, prev[..], cur);
    }

    /** The loop of longest_match: the longest length found and where. */
    method FindMatch(hashHead: nat, chain0: nat, nice: nat, limit: nat, ghost n: nat, ghost live: bool)
      returns (best: nat, start: nat)
      requires Sound(n, 1) && 1 <= hashHead <= strstart && strstart + MIN_LOOKAHEAD <= 2 * c.wsize
      requires strstart + lookahead == n && 1 <= prevLength <= MAX_MATCH && matchStart < WORD
      requires live ==> strstart + 3 <= n && Candidate(c, all, Now(n), hashHead)
      requires chain0 >= 1 && limit == if strstart > MaxDist(c) then strstart - MaxDist(c) else 0
      ensures prevLength <= best <= MAX_MATCH && start < WORD && (live && best > prevLength ==> Found(start, best))
      ensures Search(c, window[..], prev[..], strstart, limit, nice, hashHead, chain0, Best(prevLength, matchStart))
        == Best(best, start)
    {
      hide *;
      Open(n, 1);
      ghost var s := Now(n);
      MaxDistIs(c);
      best := prevLength;
      var chain := chain0;
      var end1, end := window[strstart + best - 1], window[strstart + best];
      var cur: nat, more := hashHead, true;
      start := matchStart;
      ghost var w, p := window[..], prev[..];
      ghost var found := Search(c, w, p, strstart, limit, nice, hashHead, chain, Best(prevLength, matchStart));
      while more
        invariant more ==> chain >= 1 && 1 <= cur <= strstart
        invariant 1 <= prevLength <= best <= MAX_MATCH && start < WORD
        invariant found == if more then Search(c, w, p, strstart, limit, nice, cur, chain, Best(best, start))
          else Best(best, start)
        invariant end1 == window[strstart + best - 1] && end == window[strstart + best]
        invariant live && more ==> Candidate(c, all, s, cur)
        invariant live && best > prevLength ==> Found(start, best)
        decreases if more then chain else 0
      {
        ghost var b := Best(best, start);
        var len := TryMatch(cur, best, end1, end, n, live);
        if len > best {
          start, best := cur, len;
          if len >= nice {
            SearchStops(c, w, p, strstart, limit, nice, cur, chain, b);
            more := false;
            break;
          }
          end1, end := window[strstart + best - 1], window[strstart + best];
        }
        SearchGoes(c, w, p, strstart, limit, nice, cur, chain, b);
        cur := NextLink(cur, limit, n, live);
        more := cur > limit;
        if more {
          chain := chain - 1;
          more := chain != 0;
        }
      }
    }

    /**
     * longest_match. When the string at strstart is in the chain of hashHead (live), a result above prevLength
     * is the length of a genuine match at matchStart, and no better one is missed among the strings that it looks
     * at. With less than three bytes ahead nothing is known of hashHead, and the result is at most the lookahead.
     */
    method LongestMatch(hashHead: nat, ghost n: nat, ghost live: bool) returns (r: nat)
      requires Sound(n, 1) && 1 <= hashHead <= strstart && strstart + MIN_LOOKAHEAD <= 2 * c.wsize
      requires strstart + lookahead == n && 1 <= prevLength <= MAX_MATCH && matchStart < WORD
      requires live ==> strstart + 3 <= n && Heads(c, all, Now(n), hashHead)
      modifies this`matchStart
      ensures Sound(n, 1) && r <= lookahead && r <= MAX_MATCH && (lookahead >= 1 ==> r >= 1) && matchStart < WORD
      ensures live && r > prevLength ==> matchStart < strstart && strstart <= matchStart + MaxDist(c)
      ensures live && r > prevLength ==> Genuine(all, Last(floors), slid + strstart, strstart - matchStart, r)
      ensures Best(r, matchStart)
        == CutBest(Longest(c, window[..], prev[..], strstart, lookahead, hashHead, Best(prevLength, old(matchStart))),
                   lookahead)
      ensures live ==> NoneMissed(c, all, ins, slid, slid + strstart, lookahead, prevLength, r)
    {
      hide *;
      Open(n, 1);
      MaxDistIs(c);
      ChainLong(c);
      var chain := if prevLength >= c.good then c.chain / 4 else c.chain;
      var nice := if c.nice > lookahead then lookahead else c.nice;
      var limit := if strstart > MaxDist(c) then strstart - MaxDist(c) else 0;
      ghost var b := Best(prevLength, matchStart);
      LongestIs(c, window[..], prev[..], strstart, lookahead, hashHead, b);
      if live {
        HeadsIs(c, all, Now(n), hashHead);
        LongestFindsAll(c, all, Now(n), lookahead, hashHead, b);
      }
      var best, start := FindMatch(hashHead, chain, nice, limit, n, live);
      r := if best <= lookahead then best else lookahead;
      CutIs(Best(best, start), lookahead);
      if live && r > prevLength {
        FoundAgrees(n, start, best, r);
      }
      matchStart := start;
      KeepBase();
      Close(n, 1);
    }

    /** No entry of the chains that can be followed leads beyond strstart. */
    lemma LinksBack(n: nat)
      requires Sound(n, 1)
      ensures Backwards(prev[..], strstart)
    {
      hide *;
      Open(n, 1);
      LinksBackwards(c, all, Now(n));
    }

    lemma FoundIs(n: nat, cur: nat, len: nat)
      requires Sound(n, 1) && Candidate(c, all, Now(n), cur) && Same(window[..], strstart, cur, len)
      ensures Found(cur, len)
    {
      hide CoreOK, Same, HashAt, Conf.Ok;
      CandidateLater(c, all, Now(n), cur, 1);
    }

    lemma FoundAgrees(n: nat, m: nat, len: nat, r: nat)
      requires Sound(n, 1) && Found(m, len) && r <= len && strstart + r <= n
      ensures m < strstart && strstart <= m + MaxDist(c)
      ensures Genuine(all, Last(floors), slid + strstart, strstart - m, r)
    {
      hide *;
      Open(n, 1);
      FoundFacts(m, len);
      SameShorter(window[..], strstart, m, len, r);
      CoreFacts(c, all, Now(n), 1);
      GenuineMatch(c, all, window[..], slid, n, strstart, m, r);
      GenuineIs(all, Last(floors), slid + strstart, strstart - m, r);
    }

    lemma FoundFacts(m: nat, len: nat)
      requires Found(m, len)
      ensures m < strstart && strstart <= m + MaxDist(c) && Same(window[..], strstart, m, len)
      ensures Last(floors) <= slid + m
    {
      hide Same;
    }

    // ---- fill_window ----

    /** The loops of fill_window that slide the hash tables. */
    method SlideTable(t: array<Pos>)
      modifies t
      ensures SlidTable(old(t[..]), t[..], c.wsize)
    {
      var k := t.Length;
      while k > 0
        invariant 0 <= k <= t.Length
        invariant forall j | 0 <= j < k :: t[j] == old(t[j])
        invariant forall j | k <= j < t.Length :: t[j] == SlideEntry(old(t[j]), c.wsize)
      {
        k := k - 1;
        t[k] := if t[k] >= c.wsize then t[k] - c.wsize else 0;
      }
    }

    method MoveHalf()
      requires window.Length == 2 * c.wsize
      modifies window
      ensures HalfMoved(old(window[..]), window[..], c.wsize)
    {
      var i := 0;
      while i < c.wsize
        invariant i <= c.wsize
        invariant forall j | 0 <= j < i :: window[j] == old(window[..])[j + c.wsize]
        invariant forall j | i <= j < window.Length :: window[j] == old(window[..])[j]
      {
        window[i] := window[i + c.wsize];
        i := i + 1;
      }
    }

    /** Moves the upper half of the window to the lower one. */
    method Slide(ghost n: nat)
      requires Sound(n, 0) && strstart >= c.wsize && matchStart < WORD
      modifies window, head, prev, this`strstart, this`matchStart, this`blockStart, this`slid, this`top
      ensures n >= c.wsize && Sound(n - c.wsize, 0)
      ensures strstart == old(strstart) - c.wsize && blockStart == old(blockStart) - c.wsize
      ensures slid == old(slid) + c.wsize
      ensures matchStart < WORD && c.wsize < WORD && matchStart == Sub32(old(matchStart), c.wsize)
    {
      hide *;
      Open(n, 0);
      MaxDistIs(c);
      ghost var s := Now(n);
      MoveHalf();
      SlideTable(head);
      SlideTable(prev);
      matchStart := Sub32(matchStart, c.wsize);
      strstart := strstart - c.wsize;
      blockStart := blockStart - c.wsize;
      slid := slid + c.wsize;
      top := strstart;
      CoreSlide(c, all, s, Core(window[..], Chains(head[..], prev[..], ins, slid, top, Last(floors)), strstart,
                                n - c.wsize, hash));
      KeepBase();
      Close(n - c.wsize, 0);
    }

    /** read_buf and the key of the first two bytes. */
    method ReadBuf(more: nat, ghost n: nat) returns (m: nat)
      requires Sound(n, 0) && strstart + lookahead == n && n + more <= 2 * c.wsize
      modifies window, this`taken, this`lookahead, this`hash
      ensures Sound(n + m, 0) && strstart + lookahead == n + m && lookahead == old(lookahead) + m
      ensures taken == old(taken) + m && m == (if supplied - old(taken) > more then more else supplied - old(taken))
    {
      hide *;
      Open(n, 0);
      ghost var s := Now(n);
      m := supplied - taken;
      if m > more {
        m := more;
      }
      CopyIn(strstart + lookahead, taken, m);
      ghost var w := window[..];
      taken := taken + m;
      lookahead := lookahead + m;
      if lookahead >= 3 {
        hash := Update(c, window[strstart], window[strstart + 1]);
      }
      CoreRead(c, all, s, w, m, hash);
      KeepBase();
      Close(n + m, 0);
    }

    /** zmemcpy from the caller's input. */
    method CopyIn(at: nat, from: nat, m: nat)
      requires at + m <= window.Length && from + m <= |all|
      modifies window
      ensures PutIn(old(window[..]), window[..], at, all, from, m)
    {
      var i := 0;
      while i < m
        invariant i <= m
        invariant forall j | 0 <= j < at :: window[j] == old(window[..])[j]
        invariant forall j | at <= j < at + i :: window[j] == all[from + j - at]
      {
        window[at + i] := all[from + i];
        i := i + 1;
      }
    }

    /**
     * fill_window: slides when the window is almost full and reads until there is enough
     * lookahead or no input left. There are always at least two bytes of room to read into.
     */
    method FillWindow()
      requires lookahead < MIN_LOOKAHEAD && matchStart < WORD && Sound(strstart + lookahead, 0)
      modifies window, head, prev, this`strstart, this`matchStart, this`blockStart, this`slid, this`top
      modifies this`taken, this`lookahead, this`hash
      ensures Sound(strstart + lookahead, 0) && strstart + MIN_LOOKAHEAD <= 2 * c.wsize
      ensures lookahead >= MIN_LOOKAHEAD || taken == supplied
      ensures taken == supplied || strstart + lookahead == 2 * c.wsize
      ensures lookahead >= old(lookahead) && slid + strstart == old(slid + strstart)
      ensures slid + blockStart == old(slid + blockStart)
      ensures matchStart < WORD && slid >= old(slid)
      ensures (slid == old(slid) && matchStart == old(matchStart) && strstart == old(strstart)
               && strstart < c.wsize + MaxDist(c))
           || (c.wsize < WORD && old(strstart) >= c.wsize + MaxDist(c) && slid == old(slid) + c.wsize
               && matchStart == Sub32(old(matchStart), c.wsize))
    {
      hide *;
      var again := true;
      ghost var first := true;
      MaxDistIs(c);
      while again
        invariant Sound(strstart + lookahead, 0) && matchStart < WORD
        invariant again ==> lookahead < MIN_LOOKAHEAD
        invariant first ==> again
        invariant !again ==>
          strstart + MIN_LOOKAHEAD <= 2 * c.wsize && (lookahead >= MIN_LOOKAHEAD || taken == supplied)
        invariant again || taken == supplied || strstart + lookahead == 2 * c.wsize
        invariant lookahead >= old(lookahead) && slid + strstart == old(slid + strstart)
        invariant slid + blockStart == old(slid + blockStart)
        invariant !first ==> strstart < c.wsize + MaxDist(c)
        invariant (slid == old(slid) && matchStart == old(matchStart) && strstart == old(strstart))
           || (c.wsize < WORD && old(strstart) >= c.wsize + MaxDist(c) && slid == old(slid) + c.wsize
               && matchStart == Sub32(old(matchStart), c.wsize) && strstart < c.wsize + MaxDist(c))
        decreases supplied - taken, again
      {
        Open(strstart + lookahead, 0);
        if strstart >= c.wsize + MaxDist(c) {
          Slide(strstart + lookahead);
          Open(strstart + lookahead, 0);
        }
        first := false;
        if taken == supplied {
          again := false;
        } else {
          var more := 2 * c.wsize - lookahead - strstart;
          assert more >= 2;
          var m := ReadBuf(more, strstart + lookahead);
          again := lookahead < MIN_LOOKAHEAD && taken != supplied;
        }
      }
    }

    // ---- tokens and blocks ----

    /** _tr_tally_lit; the result says that the buffer is full. */
    method TallyLit(ch: byte, ghost done: nat) returns (bflush: bool)
      requires done < |all| && ch == all[done] && |syms| + 2 <= c.litbuf
      requires Tallied(all, blocks, syms, slid + blockStart, done, RulesOf(c, level, floors))
      modifies this`syms
      ensures Tallied(all, blocks, syms, slid + blockStart, done + 1, RulesOf(c, level, floors))
      ensures syms == old(syms) + [Literal(ch)] && (bflush <==> |syms| == c.litbuf - 1)
    {
      hide *;
      TallyLiteral(all, blocks, syms, slid + blockStart, done, RulesOf(c, level, floors));
      syms := syms + [Literal(ch)];
      bflush := |syms| == c.litbuf - 1;
    }

    /** _tr_tally_dist, given the length less MIN_MATCH as the source gives it. */
    method TallyDist(dist: nat, lc: nat, ghost done: nat) returns (bflush: bool)
      requires Allowed(all, RulesOf(c, level, floors), done, dist, lc + 3) && |syms| + 2 <= c.litbuf
      requires Tallied(all, blocks, syms, slid + blockStart, done, RulesOf(c, level, floors))
      modifies this`syms
      ensures Tallied(all, blocks, syms, slid + blockStart, done + lc + 3, RulesOf(c, level, floors))
      ensures syms == old(syms) + [Match(dist, lc + 3)] && (bflush <==> |syms| == c.litbuf - 1)
    {
      hide *;
      MaxDistIs(c);
      TallyMatch(all, blocks, syms, slid + blockStart, done, RulesOf(c, level, floors), dist, lc + MIN_MATCH);
      syms := syms + [Match(dist, lc + MIN_MATCH)];
      bflush := |syms| == c.litbuf - 1;
    }

    /**
     * FLUSH_BLOCK_ONLY: the tokens since the last time become a block, together with the bytes they stand
     * for when these are still in the window. Afterwards there may or may not be room for output left.
     */
    method FlushOnly(eof: bool, ghost k: nat)
      requires 0 <= slid + blockStart <= slid + strstart && Sound(strstart + lookahead, k)
      modifies this`syms, this`blockStart, this`blocks, this`full
      ensures Sound(strstart + lookahead, k) && syms == [] && blockStart == strstart && slid + strstart <= |all|
      ensures blocks == old(blocks) + [Block(slid + old(blockStart), slid + strstart, old(syms),
                                             if old(blockStart) >= 0
                                             then Some(all[slid + old(blockStart)..slid + strstart]) else None, eof)]
    {
      hide *;
      Open(strstart + lookahead, k);
      CoreFacts(c, all, Now(strstart + lookahead), k);
      var buf := None;
      if blockStart >= 0 {
        WinSlice(c, all, window[..], slid, strstart + lookahead, blockStart, strstart);
        buf := Some(window[blockStart..strstart]);
      }
      blocks := blocks + [Block(slid + blockStart, slid + strstart, syms, buf, eof)];
      syms := [];
      blockStart := strstart;
      full := *;
      KeepBase();
      Close(strstart + lookahead, k);
    }

    /** ... in deflate_fast and deflate_slow. */
    method FlushBlock(eof: bool, ghost k: nat)
      requires Sound(strstart + lookahead, k)
      requires Tallied(all, blocks, syms, slid + blockStart, slid + strstart, RulesOf(c, level, floors))
      modifies this`syms, this`blockStart, this`blocks, this`full
      ensures Sound(strstart + lookahead, k) && syms == [] && blockStart == strstart
      ensures Tallied(all, blocks, syms, slid + blockStart, slid + strstart, RulesOf(c, level, floors))
      ensures |blocks| == |old(blocks)| + 1 && blocks == old(blocks) + [blocks[|old(blocks)|]]
      ensures blocks[|old(blocks)|].last == eof && blocks[|old(blocks)|].syms == old(syms)
    {
      hide *;
      ghost var bs, ts, start := blocks, syms, blockStart;
      TalliedEnds(all, blocks, syms, slid + blockStart, slid + strstart, RulesOf(c, level, floors));
      FlushOnly(eof, k);
      FlushTokens(all, bs, ts, slid + start, slid + strstart, RulesOf(c, level, floors), blocks[|bs|]);
    }

    /** strstart++ past a string that is inserted, or past one of the last two. */
    method Advance(ghost n: nat, ghost k: nat)
      requires strstart < n && (k == 1 || strstart + 3 > n) && Sound(n, k)
      modifies this`strstart
      ensures Sound(n, 0) && strstart == old(strstart) + 1
    {
      hide *;
      Open(n, k);
      CoreNext(c, all, Now(n), k);
      strstart := strstart + 1;
      KeepBase();
      Close(n, 0);
    }

    /** With less than three bytes ahead nothing is inserted. */
    lemma NoInsert(n: nat)
      requires strstart + 3 > n && Sound(n, 0)
      ensures Sound(n, 1)
    {
      hide ChainsOK, WinOK, Conf.Ok;
    }

    /** Sound depends on some of the fields only. */
    lemma Sounds(n: nat, k: nat, s: Core)
      requires CoreOK(c, all, s, k)
      requires s == Core(window[..], Chains(head[..], prev[..], ins, slid, top, Last(floors)), strstart, n, hash)
      requires c.Ok() && window.Length == 2 * c.wsize && prev.Length == c.wsize && head.Length == c.hsize
      requires prev != head
      requires taken <= supplied <= |all| && slid + n == taken
      ensures Sound(n, k)
    {
      hide CoreOK, Conf.Ok;
    }

    // ---- what a call of a compression function comes to ----

    /** How many tokens a block has that is ended because the buffer is full. */
    ghost function Most(): nat { if level == STORED_ONLY || c.litbuf == 0 then 0 else c.litbuf - 1 }

    lemma MostIs()
      requires c.Ok()
      ensures level != STORED_ONLY ==> Most() == c.litbuf - 1
      ensures level == STORED_ONLY ==> Most() == 0
    {
      hide Pow2;
    }

    /** Everything supplied is in blocks. */
    ghost predicate Emptied()
      reads this`taken, this`supplied, this`lookahead, this`syms, this`blockStart, this`strstart, this`matchAvailable
    {
      taken == supplied && lookahead == 0 && syms == [] && blockStart == strstart && (level == LAZY ==> !matchAvailable)
    }

    /** All the tokens so far. */
    ghost function Tokens(): seq<Token>
      reads this`blocks, this`syms
    {
      AllTokens(blocks) + syms
    }

    /**
     * What the answer means, given the blocks before: the blocks added are full and none is marked as the last of the
     * stream, except for the one that ends a flush, which is so marked if the caller finishes.
     */
    ghost predicate Answer(bs: seq<Block>, flush: Flush, b: BlockState)
      reads this`taken, this`supplied, this`lookahead, this`syms, this`blockStart, this`strstart, this`matchAvailable
      reads this`blocks, this`full
    {
      match b
      case NEED_MORE =>
        || (Grown(bs, blocks, Most())
            && (full || (flush == NO_FLUSH && taken == supplied && lookahead < MIN_LOOKAHEAD)))
        || (Closed(bs, blocks, Most(), false) && full && flush != NO_FLUSH && flush != FINISH && Emptied())
      case BLOCK_DONE =>
        Closed(bs, blocks, Most(), false) && !full && flush != NO_FLUSH && flush != FINISH && Emptied()
      case FINISH_STARTED => Closed(bs, blocks, Most(), true) && full && flush == FINISH && Emptied()
      case FINISH_DONE => Closed(bs, blocks, Most(), true) && !full && flush == FINISH && Emptied()
    }

    lemma AnswerMore(bs: seq<Block>, flush: Flush)
      requires Grown(bs, blocks, Most())
      requires full || (flush == NO_FLUSH && taken == supplied && lookahead < MIN_LOOKAHEAD)
      ensures Answer(bs, flush, NEED_MORE)
    {
      hide Grown, Most;
    }

    lemma EmptiedIs()
      ensures Emptied() <==> taken == supplied && lookahead == 0 && syms == [] && blockStart == strstart
                             && (level == LAZY ==> !matchAvailable)
    {
    }

    lemma AnswerIs(bs: seq<Block>, flush: Flush, b: BlockState)
      requires Answer(bs, flush, b)
      ensures b == NEED_MORE ==> Grown(bs, blocks, Most()) || Closed(bs, blocks, Most(), false)
      ensures b == BLOCK_DONE ==>
        Closed(bs, blocks, Most(), false) && Emptied() && flush != NO_FLUSH && flush != FINISH
      ensures b == FINISH_STARTED || b == FINISH_DONE ==>
        Closed(bs, blocks, Most(), true) && Emptied() && flush == FINISH
    {
      hide Closed, Grown, Most, Emptied;
    }

    lemma AnswerEnd(bs: seq<Block>, flush: Flush, b: BlockState)
      requires Closed(bs, blocks, Most(), flush == FINISH) && flush != NO_FLUSH
      requires taken == supplied && lookahead == 0 && syms == [] && blockStart == strstart
      requires level == LAZY ==> !matchAvailable
      requires b == if full then if flush == FINISH then FINISH_STARTED else NEED_MORE
                    else if flush == FINISH then FINISH_DONE else BLOCK_DONE
      ensures Answer(bs, flush, b)
    {
      hide Closed, Most;
    }

    // ---- deflate_fast ----

    ghost predicate FastOK()
      reads this, window, prev, head
    {
      && level == FAST && Sound(strstart + lookahead, 0) && matchLength < 3 && prevLength == 2 && matchStart < WORD
      && !matchAvailable
      && Tallied(all, blocks, syms, slid + blockStart, slid + strstart, RulesOf(c, level, floors))
    }

    /** Inserts the strings inside a short match. */
    method InsertMatch(ghost n: nat) returns (hashHead: nat)
      requires 3 <= matchLength && strstart + matchLength + 3 <= n && Sound(n, 1)
      modifies head, prev, this`hash, this`ins, this`top, this`strstart, this`matchLength
      ensures Sound(n, 0) && strstart == old(strstart) + old(matchLength) && matchLength == 0
      ensures ins == old(ins) + Spelled(old(slid + strstart) + 1, slid + strstart, slid + n)
      ensures hashHead < strstart
    {
      hide *;
      Open(n, 1);
      ghost var s := Now(n);
      ghost var from, end := slid + strstart + 1, strstart + matchLength;
      matchLength := matchLength - 1;
      Sounds(n, 1, s);
      hashHead := 0;
      SpelledNone(from, slid + n);
      while matchLength != 0
        invariant Sound(n, 1) && strstart + matchLength + 1 == end && hashHead <= strstart
        invariant slid + strstart + 1 >= from && ins == old(ins) + Spelled(from, slid + strstart + 1, slid + n)
        decreases matchLength
      {
        Advance(n, 1);
        SpelledMore(from, slid + strstart, slid + n);
        hashHead := InsertString(n);
        Open(n, 1);
        s := Now(n);
        matchLength := matchLength - 1;
        Sounds(n, 1, s);
      }
      Advance(n, 1);
    }

    /** Skips the strings inside a long match. */
    method SkipMatch(ghost n: nat)
      requires 3 <= matchLength && strstart + matchLength <= n && strstart + matchLength + 1 < window.Length
      requires Sound(n, 1)
      modifies this`hash, this`strstart, this`matchLength
      ensures Sound(n, 0) && strstart == old(strstart) + old(matchLength) && matchLength == 0
    {
      hide *;
      Open(n, 1);
      ghost var s := Now(n);
      ghost var m := matchLength;
      strstart := strstart + matchLength;
      matchLength := 0;
      hash := Update(c, window[strstart], window[strstart + 1]);
      CoreJump(c, all, s, 1, m, hash);
      KeepBase();
      Close(n, 0);
    }

    /** A match is found: the strings inside it are inserted only if it is short and three bytes are left after it. */
    method FastMatch(ghost n: nat, hashHead0: nat) returns (hashHead: nat, bflush: bool)
      requires 3 <= matchLength <= lookahead && matchLength <= MAX_MATCH && strstart + lookahead == n
      requires hashHead0 <= strstart
      requires matchStart < strstart <= matchStart + MaxDist(c)
        && strstart + MIN_LOOKAHEAD <= 2 * c.wsize == window.Length
      requires Allowed(all, RulesOf(c, level, floors), slid + strstart, strstart - matchStart, matchLength)
      requires |syms| + 2 <= c.litbuf
      requires Tallied(all, blocks, syms, slid + blockStart, slid + strstart, RulesOf(c, level, floors)) && Sound(n, 1)
      modifies head, prev, this`hash, this`ins, this`top, this`strstart, this`matchLength, this`lookahead, this`syms
      ensures Sound(n, 0) && strstart + lookahead == n && matchLength == 0
      ensures strstart == old(strstart) + old(matchLength)
      ensures Tallied(all, blocks, syms, slid + blockStart, slid + strstart, RulesOf(c, level, floors))
      ensures syms == old(syms) + [Match(old(strstart - matchStart), old(matchLength))]
      ensures (bflush <==> |syms| == c.litbuf - 1) && hashHead < strstart
      ensures ins == old(ins) + if old(matchLength) <= c.lazy && lookahead >= 3
        then Spelled(old(slid + strstart) + 1, slid + strstart, slid + n) else {}
    {
      hide *;
      MaxDistIs(c);
      hashHead := hashHead0;
      Open(n, 1);
      ghost var s := Now(n);
      bflush := TallyDist(strstart - matchStart, matchLength - 3, slid + strstart);
      lookahead := lookahead - matchLength;
      Sounds(n, 1, s);
      if matchLength <= c.lazy && lookahead >= 3 {
        hashHead := InsertMatch(n);
      } else {
        SkipMatch(n);
      }
    }

    /** Looks for a match of the string at strstart, unless the chain's head is NIL, too far away or not wanted. */
    method FastSearch(hashHead: nat, ghost n: nat, ghost live: bool)
      requires level == FAST && Sound(n, 1) && strstart + lookahead == n && strstart + MIN_LOOKAHEAD <= 2 * c.wsize
      requires matchLength < 3 && prevLength == 2 && matchStart < WORD && hashHead < 0x1_0000
        && (live <==> lookahead >= 3)
      requires live && Near(c, strstart, hashHead) ==> Heads(c, all, Now(n), hashHead)
      modifies this`matchStart, this`matchLength
      ensures Sound(n, 1) && matchStart < WORD && matchLength <= lookahead + 2 && matchLength <= MAX_MATCH
      ensures Best(matchLength, matchStart) == FastBest(c, window[..], prev[..], strstart, lookahead, hashHead,
                                                        Best(old(matchLength), old(matchStart)))
      ensures matchLength >= 3 ==>
        lookahead >= 3 && matchLength <= lookahead && matchStart < strstart <= matchStart + MaxDist(c)
      ensures matchLength >= 3 ==>
        Allowed(all, RulesOf(c, level, floors), slid + strstart, strstart - matchStart, matchLength)
      ensures live && c.strategy != HUFFMAN_ONLY && Near(c, strstart, hashHead) ==>
        NoneMissed(c, all, ins, slid, slid + strstart, lookahead, 2, matchLength)
    {
      hide *;
      Open(n, 1);
      MaxDistIs(c);
      NearIs(c, strstart, hashHead);
      FastBestIs(c, window[..], prev[..], strstart, lookahead, hashHead, Best(matchLength, matchStart));
      if hashHead != 0 && Sub32(strstart, hashHead) <= MaxDist(c) {
        if c.strategy != HUFFMAN_ONLY {
          var r := LongestMatch(hashHead, n, live);
          Open(n, 1);
          ghost var s := Now(n);
          matchLength := r;
          Sounds(n, 1, s);
          if r >= 3 {
            FastAllowed(c, all, floors, slid + strstart, strstart - matchStart, r);
          }
        }
      }
    }

    /** What one round of deflate_fast finds. */
    ghost function FastFinds(hashHead0: nat): Best
      reads this, window, prev, head
    {
      FastBest(c, window[..], (if lookahead >= 3 then Inserting() else Q()).prev, strstart, lookahead,
               if lookahead >= 3 then HeadHere() else hashHead0, Best(matchLength, matchStart))
    }

    lemma FastFindsIs(hashHead0: nat)
      ensures lookahead >= 3 ==>
        FastFinds(hashHead0) == FastBest(c, window[..], Inserting().prev, strstart, lookahead, HeadHere(),
                                         Best(matchLength, matchStart))
      ensures lookahead < 3 ==>
        FastFinds(hashHead0) == FastBest(c, window[..], prev[..], strstart, lookahead, hashHead0,
                                         Best(matchLength, matchStart))
      ensures Q().prev == prev[..]
    {
      hide FastBest, Inserting, HeadHere;
    }

    lemma FastFindsNone(hashHead0: nat)
      requires c.strategy == HUFFMAN_ONLY
      ensures FastFinds(hashHead0).len == matchLength
    {
      hide Inserting, HeadHere, Longest, Near;
    }

    /** Inserts the string at strstart, if it has three bytes, and looks for a match. */
    method FastFind(hashHead0: nat) returns (hashHead: nat)
      requires FastOK() && lookahead > 0 && strstart + MIN_LOOKAHEAD <= 2 * c.wsize && hashHead0 < 0x1_0000
      modifies head, prev, this`hash, this`ins, this`top, this`matchLength, this`matchStart
      ensures hashHead < 0x1_0000 && Sound(strstart + lookahead, 1) && matchStart < WORD && matchLength <= MAX_MATCH
      ensures lookahead >= 3 ==> hashHead <= strstart
      ensures Best(matchLength, matchStart) == old(FastFinds(hashHead0))
      ensures ins == old(ins) + Spelled(slid + strstart, slid + strstart + 1, slid + strstart + lookahead)
      ensures matchLength >= 3 ==>
        lookahead >= 3 && matchLength <= lookahead && matchStart < strstart <= matchStart + MaxDist(c)
      ensures matchLength >= 3 ==>
        Allowed(all, RulesOf(c, level, floors), slid + strstart, strstart - matchStart, matchLength)
      ensures lookahead >= 3 && c.strategy != HUFFMAN_ONLY ==>
        NoneMissed(c, all, old(ins), slid, slid + strstart, lookahead, 2, matchLength)
    {
      hide *;
      FastOpen();
      ghost var n, pos, was, b := strstart + lookahead, slid + strstart, ins, FastFinds(hashHead0);
      FastFindsIs(hashHead0);
      hashHead := hashHead0;
      MaxDistIs(c);
      SpelledNone(pos, slid + n);
      SpelledMore(pos, pos, slid + n);
      OneMissed(n, lookahead, 2, b.len);
      if lookahead >= 3 {
        Open(n, 0);
        hashHead := InsertString(n);
      } else {
        NoInsert(n);
      }
      Open(n, 1);
      FastSearch(hashHead, n, lookahead >= 3);
      if lookahead >= 3 && c.strategy != HUFFMAN_ONLY && Near(c, strstart, hashHead) {
        MissedSame(c, all, was, slid, pos, lookahead, 2, matchLength);
      }
    }

    /** The byte at strstart becomes a literal. */
    method FastLiteral(ghost n: nat) returns (bflush: bool)
      requires strstart + lookahead == n && lookahead > 0 && strstart + MIN_LOOKAHEAD <= 2 * c.wsize == window.Length
      requires Tallied(all, blocks, syms, slid + blockStart, slid + strstart, RulesOf(c, level, floors)) && Sound(n, 1)
      requires |syms| + 2 <= c.litbuf
      modifies this`syms, this`lookahead, this`strstart
      ensures Sound(n, 0) && strstart + lookahead == n && strstart == old(strstart) + 1
      ensures Tallied(all, blocks, syms, slid + blockStart, slid + strstart, RulesOf(c, level, floors))
      ensures old(slid + strstart < |all|) && syms == old(syms) + [Literal(all[old(slid + strstart)])]
      ensures bflush <==> |syms| == c.litbuf - 1
    {
      hide *;
      Open(n, 1);
      CoreFacts(c, all, Now(n), 1);
      WinByte(c, all, window[..], slid, n, strstart);
      ghost var s := Now(n);
      bflush := TallyLit(window[strstart], slid + strstart);
      lookahead := lookahead - 1;
      Sounds(n, 1, s);
      Advance(n, 1);
    }

    /**
     * One round of deflate_fast after the window is filled: a match where the string at strstart agrees for three bytes
     * or more with one of those that longest_match looks at, as long as the best of them or long enough to stop
     * at, and a literal otherwise. The string is inserted, and those inside a match if that is short.
     */
    method FastStep(hashHead0: nat) returns (hashHead: nat, bflush: bool)
      requires FastOK() && lookahead > 0 && strstart + MIN_LOOKAHEAD <= 2 * c.wsize && |syms| + 2 <= c.litbuf
      requires hashHead0 < 0x1_0000
      modifies head, prev, this`hash, this`ins, this`top, this`strstart, this`matchLength, this`matchStart,
        this`lookahead, this`syms
      ensures FastOK() && hashHead < 0x1_0000 && (bflush <==> |syms| == c.litbuf - 1)
      ensures old(slid + strstart < |all|)
      ensures var b := old(FastFinds(hashHead0));
        && syms == old(syms) + [TokenOf(old(strstart), b, all[old(slid + strstart)])]
        && strstart == old(strstart) + (if b.len >= 3 then b.len else 1)
      ensures strstart + lookahead == old(strstart + lookahead)
      ensures ins == old(ins) + Spelled(old(slid + strstart),
                                        if strstart <= old(strstart) + c.lazy && lookahead >= 3 then slid + strstart
                                        else old(slid + strstart) + 1, slid + strstart + lookahead)
      ensures old(lookahead) >= 3 && c.strategy != HUFFMAN_ONLY ==>
        NoneMissed(c, all, old(ins), slid, old(slid + strstart), old(lookahead), 2, old(FastFinds(hashHead0)).len)
      ensures
        && (old(lookahead) >= 3 && c.strategy != HUFFMAN_ONLY && Promising(c, all, old(ins), slid, old(slid + strstart))
            ==> syms[|old(syms)|].Match? && syms[|old(syms)|].len >= 3)
      ensures c.strategy == HUFFMAN_ONLY ==> syms[|old(syms)|].Literal?
    {
      hide *;
      FastOpen();
      ghost var n, pos, b := strstart + lookahead, slid + strstart, FastFinds(hashHead0);
      ghost var was, ahead := ins, lookahead;
      if c.strategy == HUFFMAN_ONLY {
        FastFindsNone(hashHead0);
      }
      hashHead := FastFind(hashHead0);
      Open(n, 1);
      TokenIs(strstart, b);
      if lookahead >= 3 && c.strategy != HUFFMAN_ONLY {
        MissedNone(c, all, was, slid, pos, ahead, matchLength);
      }
      if matchLength >= 3 {
        hashHead, bflush := FastMatch(n, hashHead);
        SpelledJoin(pos, pos + 1, slid + strstart, slid + n);
      } else {
        bflush := FastLiteral(n);
      }
      FastClose();
      Open(n, 0);
    }

    /** If the head of the chain is too far away, no string is offered. */
    lemma OneMissed(n: nat, ahead: nat, least: nat, r: nat)
      requires Sound(n, 0)
      ensures !Near(c, strstart, HeadHere()) ==> NoneMissed(c, all, ins, slid, slid + strstart, ahead, least, r)
    {
      hide CoreOK, Near, HashAt, NoneMissed, Conf.Ok;
      Open(n, 0);
      CoreFacts(c, all, Now(n), 0);
      NoneOffered(c, all, Now(n).q, strstart, ahead, least, r);
    }

    lemma FastOpen()
      requires FastOK()
      ensures level == FAST && Sound(strstart + lookahead, 0) && matchLength < 3 && prevLength == 2 && matchStart < WORD
      ensures !matchAvailable
      ensures Tallied(all, blocks, syms, slid + blockStart, slid + strstart, RulesOf(c, level, floors))
    {
      hide Sound, Tallied;
    }

    lemma FastClose()
      requires level == FAST && Sound(strstart + lookahead, 0) && matchLength < 3 && prevLength == 2
      requires matchStart < WORD && !matchAvailable
      requires Tallied(all, blocks, syms, slid + blockStart, slid + strstart, RulesOf(c, level, floors))
      ensures FastOK()
    {
      hide Sound, Tallied;
    }

    /** fill_window in deflate_fast */
    method FastFill()
      requires FastOK() && lookahead < MIN_LOOKAHEAD
      modifies window, head, prev, this`strstart, this`matchStart, this`blockStart, this`slid, this`top
      modifies this`taken, this`lookahead, this`hash
      ensures FastOK() && strstart + MIN_LOOKAHEAD <= 2 * c.wsize && slid + strstart == old(slid + strstart)
      ensures lookahead >= MIN_LOOKAHEAD || taken == supplied
    {
      hide *;
      FastOpen();
      FillWindow();
      FastClose();
    }

    /** ... and a new block if the buffer is full; leave says that room for output has run out. */
    method FastRound(hashHead0: nat, ghost bs: seq<Block>) returns (hashHead: nat, leave: bool)
      requires FastOK() && lookahead > 0 && strstart + MIN_LOOKAHEAD <= 2 * c.wsize && |syms| + 2 <= c.litbuf
      requires hashHead0 < 0x1_0000 && Grown(bs, blocks, Most()) && !full
      modifies head, prev, this`hash, this`ins, this`top, this`strstart, this`matchLength, this`matchStart,
        this`lookahead, this`syms, this`blockStart, this`blocks, this`full
      ensures FastOK() && hashHead < 0x1_0000 && |syms| + 2 <= c.litbuf && Grown(bs, blocks, Most())
      ensures strstart > old(strstart) && (leave <==> full)
    {
      hide *;
      var bflush;
      hashHead, bflush := FastStep(hashHead0);
      leave := false;
      if bflush {
        FastFlush(false, bs);
        leave := full;
      }
    }

    /** The end of deflate_fast: everything is in blocks. */
    method FastEnd(flush: Flush, ghost bs: seq<Block>) returns (b: BlockState)
      requires FastOK() && taken == supplied && lookahead == 0 && flush != NO_FLUSH
      requires Grown(bs, blocks, Most())
      modifies this`syms, this`blockStart, this`blocks, this`full
      ensures FastOK() && |syms| + 2 <= c.litbuf && Answer(bs, flush, b)
    {
      hide *;
      FastFlush(flush == FINISH, bs);
      FastOpen();
      b := if full then if flush == FINISH then FINISH_STARTED else NEED_MORE
           else if flush == FINISH then FINISH_DONE else BLOCK_DONE;
      AnswerEnd(bs, flush, b);
    }

    /** deflate_fast */
    method DeflateFast(flush: Flush) returns (b: BlockState)
      requires FastOK() && |syms| + 2 <= c.litbuf && !full
      modifies window, head, prev, this
      ensures FastOK() && |syms| + 2 <= c.litbuf && supplied == old(supplied) && Answer(old(blocks), flush, b)
      ensures finished == old(finished) && floors == old(floors)
    {
      hide *;
      var hashHead := 0;
      MaxDistIs(c);
      GrownSame(blocks, Most());
      while true
        invariant FastOK() && |syms| + 2 <= c.litbuf && hashHead < 0x1_0000 && supplied == old(supplied)
        invariant Grown(old(blocks), blocks, Most()) && finished == old(finished) && floors == old(floors) && !full
        decreases |all| - slid - strstart
      {
        FastOpen();
        Open(strstart + lookahead, 0);
        if lookahead < MIN_LOOKAHEAD {
          FastFill();
          if lookahead < MIN_LOOKAHEAD && flush == NO_FLUSH {
            AnswerMore(old(blocks), flush);
            return NEED_MORE;
          }
          if lookahead == 0 {
            break;
          }
        }
        var leave;
        hashHead, leave := FastRound(hashHead, old(blocks));
        if leave {
          AnswerMore(old(blocks), flush);
          return NEED_MORE;
        }
        FastOpen();
        Open(strstart + lookahead, 0);
      }
      b := FastEnd(flush, old(blocks));
    }

    /** FLUSH_BLOCK in deflate_fast */
    method FastFlush(eof: bool, ghost bs: seq<Block>)
      requires FastOK() && Grown(bs, blocks, Most())
      modifies this`syms, this`blockStart, this`blocks, this`full
      ensures FastOK() && syms == [] && blockStart == strstart && |syms| + 2 <= c.litbuf
      ensures Closed(bs, blocks, Most(), eof) && Tokens() == old(Tokens())
      ensures !eof && |old(syms)| == c.litbuf - 1 ==> Grown(bs, blocks, Most())
    {
      hide *;
      FastOpen();
      Open(strstart + lookahead, 0);
      BufferBig(c);
      MostIs();
      TokensIs();
      ghost var before, ts := blocks, syms;
      FlushBlock(eof, 0);
      Flushing(bs, before, ts, blocks[|before|]);
      FastClose();
    }

    /** A block is added. */
    lemma Flushing(bs: seq<Block>, before: seq<Block>, ts: seq<Token>, b: Block)
      requires blocks == before + [b] && b.syms == ts && syms == [] && Grown(bs, before, Most())
      ensures Closed(bs, blocks, Most(), b.last) && Tokens() == AllTokens(before) + ts
      ensures |ts| == Most() && !b.last ==> Grown(bs, blocks, Most())
    {
      hide Most, Grown, Closed, AllTokens;
      GrownClosed(bs, before, Most(), b);
      AllTokensMore(before, b);
      if |ts| == Most() && !b.last {
        GrownMore(bs, before, Most(), b);
      }
    }

    // ---- deflate_slow ----

    /** The match found at the string before strstart, if any, may become a token, even if matchStart has wrapped. */
    ghost predicate Pending()
      reads this
    {
      && matchStart < WORD && 1 <= matchLength <= MAX_MATCH
      && (matchLength >= 3 ==>
            && matchAvailable && 1 <= strstart < WORD && matchLength <= lookahead + 1
            && Allowed(all, RulesOf(c, level, floors), slid + strstart - 1, Sub32(strstart - 1, matchStart),
                       matchLength))
    }

    ghost predicate SlowOK()
      reads this, window, prev, head
    {
      && level == LAZY && Sound(strstart + lookahead, 0) && Pending() && (matchAvailable ==> strstart >= 1)
      && Done() >= 0 && Tallied(all, blocks, syms, slid + blockStart, Done(), RulesOf(c, level, floors))
    }

    /** How much of the input the tokens cover: all before strstart, except one byte that waits for a better match. */
    ghost function Done(): int
      reads this
    {
      slid + strstart - if matchAvailable then 1 else 0
    }

    lemma SlowOpen()
      requires SlowOK()
      ensures level == LAZY && Sound(strstart + lookahead, 0) && matchStart < WORD && 1 <= matchLength <= MAX_MATCH
      ensures matchAvailable ==> strstart >= 1
      ensures matchLength >= 3 ==> matchAvailable && 1 <= strstart < WORD && matchLength <= lookahead + 1
      ensures matchLength >= 3 ==>
        Allowed(all, RulesOf(c, level, floors), slid + strstart - 1, Sub32(strstart - 1, matchStart), matchLength)
      ensures slid + strstart - (if matchAvailable then 1 else 0) >= 0
      ensures Tallied(all, blocks, syms, slid + blockStart, slid + strstart - (if matchAvailable then 1 else 0),
                      RulesOf(c, level, floors))
    {
      hide Sound, Tallied, Allowed, Sub32, RulesOf;
    }

    lemma SlowClose()
      requires level == LAZY && Sound(strstart + lookahead, 0) && matchStart < WORD && 1 <= matchLength <= MAX_MATCH
      requires matchAvailable ==> strstart >= 1
      requires matchLength >= 3 ==> matchAvailable && 1 <= strstart < WORD && matchLength <= lookahead + 1
      requires matchLength >= 3 ==>
        Allowed(all, RulesOf(c, level, floors), slid + strstart - 1, Sub32(strstart - 1, matchStart), matchLength)
      requires slid + strstart - (if matchAvailable then 1 else 0) >= 0
      requires Tallied(all, blocks, syms, slid + blockStart, slid + strstart - (if matchAvailable then 1 else 0),
                       RulesOf(c, level, floors))
      ensures SlowOK()
    {
      hide Sound, Tallied, Allowed, Sub32, RulesOf;
    }

    /** Looks for a match at strstart that is better than the previous one. */
    method SlowSearch(hashHead: nat, ghost n: nat, ghost live: bool)
      requires level == LAZY && Sound(n, 1) && strstart + lookahead == n && strstart + MIN_LOOKAHEAD <= 2 * c.wsize
      requires 1 <= prevLength <= MAX_MATCH && matchLength == 2 && matchStart < WORD && hashHead < 0x1_0000
      requires (live <==> lookahead >= 3) && lookahead >= 1
      requires live && Near(c, strstart, hashHead) ==> Heads(c, all, Now(n), hashHead)
      modifies this`matchStart, this`matchLength
      ensures Sound(n, 1) && matchStart < WORD && 1 <= matchLength <= MAX_MATCH
      ensures Best(matchLength, matchStart) == SlowBest(c, window[..], prev[..], strstart, lookahead, hashHead,
                                                        Best(prevLength, old(matchStart)))
      ensures matchLength >= 3 ==> lookahead >= 3 && matchLength <= lookahead
      ensures matchLength >= 3 && matchLength > prevLength ==> matchStart < strstart <= matchStart + MaxDist(c)
      ensures matchLength >= 3 && matchLength > prevLength ==>
        Allowed(all, RulesOf(c, level, floors), slid + strstart, strstart - matchStart, matchLength)
      ensures live && c.strategy == DEFAULT && Near(c, strstart, hashHead) && 3 <= prevLength < c.lazy ==>
        NoneMissed(c, all, ins, slid, slid + strstart, lookahead, prevLength, matchLength)
    {
      hide *;
      Open(n, 1);
      MaxDistIs(c);
      NearIs(c, strstart, hashHead);
      SlowBestIs(c, window[..], prev[..], strstart, lookahead, hashHead, Best(prevLength, matchStart));
      if hashHead != 0 && prevLength < c.lazy && Sub32(strstart, hashHead) <= MaxDist(c) {
        if c.strategy != HUFFMAN_ONLY {
          var r := LongestMatch(hashHead, n, live);
          Open(n, 1);
          ghost var s := Now(n);
          matchLength := r;
          Sounds(n, 1, s);
        }
        Open(n, 1);
        if matchLength <= 5 && (c.strategy == FILTERED || (matchLength == 3 && Sub32(strstart, matchStart) > TOO_FAR)) {
          ghost var s, r := Now(n), matchLength;
          matchLength := 2;
          Sounds(n, 1, s);
          if live && c.strategy == DEFAULT && prevLength >= 3 {
            MissedDropped(c, all, ins, slid, slid + strstart, lookahead, prevLength, r, 2);
          }
        } else if matchLength >= 3 && matchLength > prevLength {
          SlowAllowed(c, all, floors, slid + strstart, strstart - matchStart, matchLength);
        }
      }
    }

    /** Inserts the strings inside the previous match, as far as they have their three bytes. */
    method InsertPrevious(ghost n: nat, maxInsert: int, hashHead0: nat) returns (hashHead: nat)
      requires 1 <= prevLength && strstart + prevLength + 1 <= n && maxInsert == n - 3 && hashHead0 < 0x1_0000
      requires Sound(n, 1)
      modifies head, prev, this`hash, this`ins, this`top, this`strstart, this`prevLength
      ensures Sound(n, 0) && strstart == old(strstart) + old(prevLength) + 1
      ensures ins == old(ins) + Spelled(old(slid + strstart) + 1, slid + strstart, slid + n)
      ensures hashHead < 0x1_0000
    {
      hide *;
      Open(n, 1);
      ghost var from, end := slid + strstart + 1, strstart + prevLength;
      hashHead := hashHead0;
      SpelledNone(from, slid + n);
      while prevLength != 0
        invariant Sound(n, 1) && strstart + prevLength == end && hashHead < 0x1_0000
        invariant slid + strstart + 1 >= from && ins == old(ins) + Spelled(from, slid + strstart + 1, slid + n)
        decreases prevLength
      {
        Advance(n, 1);
        SpelledMore(from, slid + strstart, slid + n);
        Open(n, 0);
        if strstart <= maxInsert {
          hashHead := InsertString(n);
        } else {
          NoInsert(n);
        }
        Open(n, 1);
        ghost var s := Now(n);
        prevLength := prevLength - 1;
        Sounds(n, 1, s);
      }
      Advance(n, 1);
    }

    /** The previous match is not beaten: it becomes a token. */
    method SlowMatch(ghost n: nat, hashHead0: nat) returns (hashHead: nat, bflush: bool)
      requires 3 <= prevLength <= MAX_MATCH && matchAvailable && 1 <= strstart < WORD && prevLength <= lookahead + 1
      requires prevMatch < WORD && level == LAZY
      requires strstart + lookahead == n && hashHead0 < 0x1_0000 && |syms| + 2 <= c.litbuf && matchStart < WORD
      requires Allowed(all, RulesOf(c, level, floors), slid + strstart - 1, Sub32(strstart - 1, prevMatch), prevLength)
      requires Tallied(all, blocks, syms, slid + blockStart, slid + strstart - 1, RulesOf(c, level, floors))
      requires Sound(n, 1)
      modifies head, prev, this`hash, this`ins, this`top, this`strstart, this`prevLength, this`lookahead, this`syms
      modifies this`matchAvailable, this`matchLength
      ensures SlowOK() && !matchAvailable && matchLength == 2 && hashHead < 0x1_0000
      ensures strstart == old(strstart) + old(prevLength) - 1 && strstart + lookahead == n
      ensures syms == old(syms) + [Match(Sub32(old(strstart) - 1, prevMatch), old(prevLength))]
      ensures bflush <==> |syms| == c.litbuf - 1
      ensures ins == old(ins) + Spelled(old(slid + strstart) + 1, slid + strstart, slid + n)
    {
      hide *;
      MaxDistIs(c);
      Open(n, 1);
      ghost var s := Now(n);
      var maxInsert := strstart + lookahead - 3;
      bflush := TallyDist(Sub32(strstart - 1, prevMatch), prevLength - 3, slid + strstart - 1);
      lookahead := lookahead - (prevLength - 1);
      prevLength := prevLength - 2;
      Sounds(n, 1, s);
      hashHead := InsertPrevious(n, maxInsert, hashHead0);
      NothingPending(n);
    }

    method NothingPending(ghost n: nat)
      requires level == LAZY && strstart + lookahead == n && matchStart < WORD && Sound(n, 0)
      requires Tallied(all, blocks, syms, slid + blockStart, slid + strstart, RulesOf(c, level, floors))
      modifies this`matchAvailable, this`matchLength
      ensures SlowOK() && !matchAvailable && matchLength == 2
    {
      hide *;
      MaxDistIs(c);
      Open(n, 0);
      ghost var s := Now(n);
      matchAvailable := false;
      matchLength := 2;
      Sounds(n, 0, s);
      SlowClose();
    }

    /** The byte before strstart becomes a literal; strstart waits in its place. */
    method SlowLiteral(ghost n: nat, ghost bs: seq<Block>)
      requires matchAvailable && strstart >= 1 && lookahead >= 1 && strstart + lookahead == n && |syms| + 2 <= c.litbuf
      requires matchStart < WORD && 1 <= matchLength <= MAX_MATCH && strstart + MIN_LOOKAHEAD <= 2 * c.wsize
      requires level == LAZY
      requires matchLength >= 3 ==> matchLength <= lookahead && matchStart < strstart <= matchStart + MaxDist(c)
      requires matchLength >= 3 ==>
        Allowed(all, RulesOf(c, level, floors), slid + strstart, strstart - matchStart, matchLength)
      requires Tallied(all, blocks, syms, slid + blockStart, slid + strstart - 1, RulesOf(c, level, floors))
      requires Sound(n, 1) && Grown(bs, blocks, Most())
      modifies this`syms, this`blockStart, this`blocks, this`full, this`strstart, this`lookahead
      ensures SlowOK() && |syms| + 2 <= c.litbuf && strstart == old(strstart) + 1 && strstart + lookahead == n
      ensures old(slid + strstart - 1 < |all|)
      ensures Tokens() == old(Tokens()) + [Literal(all[old(slid + strstart - 1)])] && Grown(bs, blocks, Most())
    {
      hide *;
      Open(n, 1);
      MaxDistIs(c);
      MostIs();
      BufferBig(c);
      CoreFacts(c, all, Now(n), 1);
      WinByte(c, all, window[..], slid, n, strstart - 1);
      ghost var s := Now(n);
      TokensMore(Literal(window[strstart - 1]));
      var bflush := TallyLit(window[strstart - 1], slid + strstart - 1);
      TokensIs();
      Sounds(n, 1, s);
      if bflush {
        ghost var before, ts := blocks, syms;
        FlushBlock(false, 1);
        Flushing(bs, before, ts, blocks[|before|]);
      }
      SlowNext(n);
      TokensIs();
    }

    lemma TokensIs()
      ensures Tokens() == AllTokens(blocks) + syms
    {
      hide AllTokens;
    }

    lemma TokensMore(t: Token)
      ensures AllTokens(blocks) + (syms + [t]) == Tokens() + [t]
    {
      hide AllTokens;
    }

    /** strstart++ and lookahead--, the new match staying pending. */
    method SlowNext(ghost n: nat)
      requires matchAvailable && lookahead >= 1 && strstart + lookahead == n && strstart + MIN_LOOKAHEAD <= 2 * c.wsize
      requires matchStart < WORD && 1 <= matchLength <= MAX_MATCH && level == LAZY
      requires matchLength >= 3 ==> matchLength <= lookahead && matchStart < strstart <= matchStart + MaxDist(c)
      requires matchLength >= 3 ==>
        Allowed(all, RulesOf(c, level, floors), slid + strstart, strstart - matchStart, matchLength)
      requires Tallied(all, blocks, syms, slid + blockStart, slid + strstart, RulesOf(c, level, floors)) && Sound(n, 1)
      modifies this`strstart, this`lookahead
      ensures SlowOK() && strstart == old(strstart) + 1 && strstart + lookahead == n
    {
      hide *;
      Open(n, 1);
      MaxDistIs(c);
      Advance(n, 1);
      Open(n, 0);
      ghost var s := Now(n);
      lookahead := lookahead - 1;
      Sounds(n, 0, s);
      SlowClose();
    }

    /** A pending match survives the slide of fill_window. */
    method SlowFill()
      requires SlowOK() && lookahead < MIN_LOOKAHEAD
      modifies window, head, prev, this`strstart, this`matchStart, this`blockStart, this`slid, this`top
      modifies this`taken, this`lookahead, this`hash
      ensures SlowOK() && strstart + MIN_LOOKAHEAD <= 2 * c.wsize && slid + strstart == old(slid + strstart)
      ensures lookahead >= MIN_LOOKAHEAD || taken == supplied
    {
      hide *;
      SlowOpen();
      Open(strstart + lookahead, 0);
      MaxDistIs(c);
      if matchLength >= 3 {
        AllowedNear(c, all, floors, slid + strstart - 1, Sub32(strstart - 1, matchStart), matchLength);
      }
      FillWindow();
      Open(strstart + lookahead, 0);
      SlowClose();
    }

    /** prev_length = match_length, prev_match = match_start, match_length = MIN_MATCH-1 */
    method Remember(ghost n: nat)
      requires Sound(n, 1)
      modifies this`prevLength, this`prevMatch, this`matchLength
      ensures Sound(n, 1) && Now(n) == old(Now(n)) && prevLength == old(matchLength) && prevMatch == matchStart
      ensures matchLength == 2
    {
      hide *;
      Open(n, 1);
      ghost var s := Now(n);
      prevLength, prevMatch := matchLength, matchStart;
      matchLength := 2;
      Sounds(n, 1, s);
      Open(n, 1);
    }

    /** What one round of deflate_slow finds. */
    ghost function SlowFinds(hashHead0: nat): Best
      reads this, window, prev, head
    {
      SlowBest(c, window[..], (if lookahead >= 3 then Inserting() else Q()).prev, strstart, lookahead,
               if lookahead >= 3 then HeadHere() else hashHead0, Best(matchLength, matchStart))
    }

    lemma SlowFindsIs(hashHead0: nat)
      ensures lookahead >= 3 ==>
        SlowFinds(hashHead0) == SlowBest(c, window[..], Inserting().prev, strstart, lookahead, HeadHere(),
                                         Best(matchLength, matchStart))
      ensures lookahead < 3 ==>
        SlowFinds(hashHead0) == SlowBest(c, window[..], prev[..], strstart, lookahead, hashHead0,
                                         Best(matchLength, matchStart))
      ensures Q().prev == prev[..]
    {
      hide SlowBest, Inserting, HeadHere;
    }

    /** Inserts the string at strstart, if it has three bytes, and looks for a match. */
    method SlowFind(hashHead0: nat) returns (hashHead: nat)
      requires SlowOK() && lookahead > 0 && strstart + MIN_LOOKAHEAD <= 2 * c.wsize && hashHead0 < 0x1_0000
      modifies head, prev, this`hash, this`ins, this`top, this`prevLength, this`prevMatch, this`matchLength,
        this`matchStart
      ensures hashHead < 0x1_0000 && Sound(strstart + lookahead, 1) && prevLength == old(matchLength)
      ensures prevMatch == old(matchStart) && Best(matchLength, matchStart) == old(SlowFinds(hashHead0))
      ensures ins == old(ins) + Spelled(slid + strstart, slid + strstart + 1, slid + strstart + lookahead)
      ensures matchStart < WORD && 1 <= matchLength <= MAX_MATCH
      ensures matchLength >= 3 ==> lookahead >= 3 && matchLength <= lookahead
      ensures matchLength >= 3 && matchLength > prevLength ==> matchStart < strstart <= matchStart + MaxDist(c)
      ensures matchLength >= 3 && matchLength > prevLength ==>
        Allowed(all, RulesOf(c, level, floors), slid + strstart, strstart - matchStart, matchLength)
      ensures lookahead >= 3 && c.strategy == DEFAULT && 3 <= prevLength < c.lazy ==>
        NoneMissed(c, all, old(ins), slid, slid + strstart, lookahead, prevLength, matchLength)
    {
      hide *;
      SlowOpen();
      ghost var n, pos, was, b := strstart + lookahead, slid + strstart, ins, SlowFinds(hashHead0);
      SlowFindsIs(hashHead0);
      hashHead := hashHead0;
      MaxDistIs(c);
      SpelledNone(pos, slid + n);
      SpelledMore(pos, pos, slid + n);
      OneMissed(n, lookahead, matchLength, b.len);
      if lookahead >= 3 {
        Open(n, 0);
        hashHead := InsertString(n);
      } else {
        NoInsert(n);
      }
      Open(n, 1);
      Remember(n);
      SlowSearch(hashHead, n, lookahead >= 3);
      if lookahead >= 3 && c.strategy == DEFAULT && 3 <= prevLength < c.lazy && Near(c, strstart, hashHead) {
        MissedSame(c, all, was, slid, pos, lookahead, prevLength, matchLength);
      }
    }

    /** The index before strstart, and its byte. */
    ghost function Before(): nat
      reads this`strstart
    {
      if strstart > 0 then strstart - 1 else 0
    }

    ghost function ByteBefore(): byte
      reads this`slid, this`strstart
    {
      if 0 < slid + strstart <= |all| then all[slid + strstart - 1] else 0
    }

    lemma ByteIs()
      ensures strstart > 0 ==> Before() == strstart - 1
      ensures 0 < slid + strstart <= |all| ==> ByteBefore() == all[slid + strstart - 1]
    {
    }

    /** No match is looked for when the one before is long enough. */
    lemma SlowFindsNone(hashHead0: nat)
      requires matchLength >= c.lazy || c.strategy == HUFFMAN_ONLY
      ensures SlowFinds(hashHead0).len == 2
    {
      hide Inserting, HeadHere, Longest, Near;
    }

    /**
     * One round of deflate_slow after the window is filled; leave says that room for output has run out. The match
     * at the string before becomes a token if none longer is found at strstart; otherwise the byte before becomes
     * a literal, if one waits, and the new match waits in turn. Every string passed is inserted if it has its three
     * bytes.
     */
    method SlowStep(hashHead0: nat) returns (hashHead: nat, leave: bool)
      requires SlowOK() && lookahead > 0 && strstart + MIN_LOOKAHEAD <= 2 * c.wsize && |syms| + 2 <= c.litbuf
      requires hashHead0 < 0x1_0000 && !full
      modifies head, prev, this
      ensures SlowOK() && |syms| + 2 <= c.litbuf && hashHead < 0x1_0000 && (leave <==> full)
      ensures supplied == old(supplied) && finished == old(finished) && floors == old(floors) && slid == old(slid)
      ensures strstart + lookahead == old(strstart + lookahead) && strstart > old(strstart)
      ensures Grown(old(blocks), blocks, Most())
      ensures var m, b := old(Best(matchLength, matchStart)), old(SlowFinds(hashHead0));
        && Tokens() == old(Tokens()) + SlowTokens(old(Before()), old(matchAvailable), m, b, old(ByteBefore()))
        && strstart == old(strstart) + (if Adopted(m, b) then m.len - 1 else 1)
        && matchAvailable == !Adopted(m, b)
        && Best(matchLength, matchStart) == if Adopted(m, b) then Best(2, b.start) else b
      ensures ins == old(ins) + Spelled(old(slid + strstart), slid + strstart, slid + strstart + lookahead)
      ensures old(matchLength) >= 3 && (old(matchLength) >= c.lazy || c.strategy == HUFFMAN_ONLY) ==> !matchAvailable
      ensures old(lookahead) >= 3 && c.strategy == DEFAULT && 3 <= old(matchLength) < c.lazy ==>
        NoneMissed(c, all, old(ins), slid, old(slid + strstart), old(lookahead), old(matchLength),
                   old(SlowFinds(hashHead0)).len)
    {
      hide *;
      SlowOpen();
      ghost var pos, n, b := slid + strstart, strstart + lookahead, SlowFinds(hashHead0);
      SlowTokensIs(Before(), matchAvailable, Best(matchLength, matchStart), b, ByteBefore());
      if matchLength >= c.lazy || c.strategy == HUFFMAN_ONLY {
        SlowFindsNone(hashHead0);
      }
      hashHead := SlowFind(hashHead0);
      hashHead, leave := SlowChoose(hashHead, n);
      SpelledJoin(pos, pos + 1, slid + strstart, slid + n);
    }

    /** The token for the match before, or for the byte before, or none yet. */
    method SlowChoose(hashHead0: nat, ghost n: nat) returns (hashHead: nat, leave: bool)
      requires level == LAZY && lookahead > 0 && strstart + MIN_LOOKAHEAD <= 2 * c.wsize && |syms| + 2 <= c.litbuf
      requires hashHead0 < 0x1_0000 && strstart + lookahead == n && Sound(n, 1) && !full
      requires matchStart < WORD && 1 <= matchLength <= MAX_MATCH && prevMatch < WORD && 1 <= prevLength <= MAX_MATCH
      requires matchAvailable ==> strstart >= 1
      requires prevLength >= 3 ==> matchAvailable && strstart < WORD && prevLength <= lookahead + 1
      requires prevLength >= 3 ==>
        Allowed(all, RulesOf(c, level, floors), slid + strstart - 1, Sub32(strstart - 1, prevMatch), prevLength)
      requires matchLength >= 3 ==> matchLength <= lookahead
      requires matchLength >= 3 && matchLength > prevLength ==> matchStart < strstart <= matchStart + MaxDist(c)
      requires matchLength >= 3 && matchLength > prevLength ==>
        Allowed(all, RulesOf(c, level, floors), slid + strstart, strstart - matchStart, matchLength)
      requires Tallied(all, blocks, syms, slid + blockStart, slid + strstart - (if matchAvailable then 1 else 0),
                       RulesOf(c, level, floors))
      modifies head, prev, this`hash, this`ins, this`top, this`strstart, this`prevLength, this`lookahead, this`syms
      modifies this`matchAvailable, this`matchLength, this`blockStart, this`blocks, this`full
      ensures SlowOK() && |syms| + 2 <= c.litbuf && hashHead < 0x1_0000 && (leave <==> full)
      ensures strstart + lookahead == n && strstart > old(strstart) && Grown(old(blocks), blocks, Most())
      ensures var m, b := old(Best(prevLength, prevMatch)), old(Best(matchLength, matchStart));
        && Tokens() == old(Tokens()) + SlowTokens(old(Before()), old(matchAvailable), m, b, old(ByteBefore()))
        && strstart == old(strstart) + (if Adopted(m, b) then m.len - 1 else 1)
        && matchAvailable == !Adopted(m, b)
        && Best(matchLength, matchStart) == if Adopted(m, b) then Best(2, b.start) else b
      ensures ins == old(ins) + Spelled(old(slid + strstart) + 1, slid + strstart, slid + n)
    {
      hide *;
      leave := false;
      hashHead := hashHead0;
      Open(n, 1);
      CoreFacts(c, all, Now(n), 1);
      SlowTokensIs(Before(), matchAvailable, Best(prevLength, prevMatch), Best(matchLength, matchStart), ByteBefore());
      ByteIs();
      GrownSame(blocks, Most());
      SpelledNone(slid + strstart + 1, slid + n);
      if prevLength >= 3 && matchLength <= prevLength {
        hashHead, leave := SlowAdopt(n, hashHead, blocks);
      } else if matchAvailable {
        SlowLiteral(n, blocks);
        leave := full;
      } else {
        SlowWait(n);
      }
    }

    /** The previous match becomes a token, and perhaps the block is full. */
    method SlowAdopt(ghost n: nat, hashHead0: nat, ghost bs: seq<Block>) returns (hashHead: nat, leave: bool)
      requires 3 <= prevLength <= MAX_MATCH && matchAvailable && 1 <= strstart < WORD && prevLength <= lookahead + 1
      requires prevMatch < WORD && level == LAZY && c.Ok()
      requires strstart + lookahead == n && hashHead0 < 0x1_0000 && |syms| + 2 <= c.litbuf && matchStart < WORD
      requires Allowed(all, RulesOf(c, level, floors), slid + strstart - 1, Sub32(strstart - 1, prevMatch), prevLength)
      requires Tallied(all, blocks, syms, slid + blockStart, slid + strstart - 1, RulesOf(c, level, floors))
      requires Sound(n, 1) && Grown(bs, blocks, Most()) && !full
      modifies head, prev, this`hash, this`ins, this`top, this`strstart, this`prevLength, this`lookahead, this`syms
      modifies this`matchAvailable, this`matchLength, this`blockStart, this`blocks, this`full
      ensures SlowOK() && !matchAvailable && matchLength == 2 && hashHead < 0x1_0000 && |syms| + 2 <= c.litbuf
      ensures strstart == old(strstart) + old(prevLength) - 1 && strstart + lookahead == n && (leave <==> full)
      ensures Tokens() == old(Tokens()) + [Match(Sub32(old(strstart) - 1, prevMatch), old(prevLength))]
      ensures Grown(bs, blocks, Most())
      ensures ins == old(ins) + Spelled(old(slid + strstart) + 1, slid + strstart, slid + n)
    {
      hide *;
      MostIs();
      BufferBig(c);
      TokensMore(Match(Sub32(strstart - 1, prevMatch), prevLength));
      var bflush;
      hashHead, bflush := SlowMatch(n, hashHead0);
      TokensIs();
      leave := false;
      if bflush {
        SlowFlush(false, bs);
        leave := full;
      }
    }

    /** strstart waits for a better match at the next string. */
    method SlowWait(ghost n: nat)
      requires !matchAvailable && lookahead >= 1 && strstart + lookahead == n && strstart + MIN_LOOKAHEAD <= 2 * c.wsize
      requires matchStart < WORD && 1 <= matchLength <= MAX_MATCH && level == LAZY
      requires matchLength >= 3 ==> matchLength <= lookahead && matchStart < strstart <= matchStart + MaxDist(c)
      requires matchLength >= 3 ==>
        Allowed(all, RulesOf(c, level, floors), slid + strstart, strstart - matchStart, matchLength)
      requires Tallied(all, blocks, syms, slid + blockStart, slid + strstart, RulesOf(c, level, floors)) && Sound(n, 1)
      modifies this`matchAvailable, this`strstart, this`lookahead
      ensures SlowOK() && matchAvailable && strstart == old(strstart) + 1 && strstart + lookahead == n
    {
      hide *;
      Open(n, 1);
      ghost var s := Now(n);
      matchAvailable := true;
      Sounds(n, 1, s);
      SlowNext(n);
    }

    /** FLUSH_BLOCK after a match. */
    method SlowFlush(eof: bool, ghost bs: seq<Block>)
      requires SlowOK() && !matchAvailable && Grown(bs, blocks, Most())
      modifies this`syms, this`blockStart, this`blocks, this`full
      ensures SlowOK() && syms == [] && blockStart == strstart && |syms| + 2 <= c.litbuf
      ensures Closed(bs, blocks, Most(), eof) && Tokens() == old(Tokens())
      ensures !eof && |old(syms)| == c.litbuf - 1 ==> Grown(bs, blocks, Most())
    {
      hide *;
      SlowOpen();
      Open(strstart + lookahead, 0);
      BufferBig(c);
      MostIs();
      TokensIs();
      ghost var before, ts := blocks, syms;
      FlushBlock(eof, 0);
      Flushing(bs, before, ts, blocks[|before|]);
      SlowClose();
    }

    /** The last byte, if it is still waiting, becomes a literal. */
    method SlowLast()
      requires SlowOK() && lookahead == 0 && |syms| + 2 <= c.litbuf
      modifies this`syms, this`matchAvailable
      ensures SlowOK() && !matchAvailable
      ensures syms == old(syms) + if old(matchAvailable) then [Literal(old(ByteBefore()))] else []
    {
      hide *;
      SlowOpen();
      ghost var n := strstart + lookahead;
      Open(n, 0);
      ByteIs();
      if matchAvailable {
        CoreFacts(c, all, Now(n), 0);
        WinByte(c, all, window[..], slid, n, strstart - 1);
        ghost var s := Now(n);
        var bflush := TallyLit(window[strstart - 1], slid + strstart - 1);
        matchAvailable := false;
        Sounds(n, 0, s);
        SlowClose();
      }
    }

    /** The end of deflate_slow: everything is in blocks. */
    method SlowEnd(flush: Flush, ghost bs: seq<Block>) returns (b: BlockState)
      requires SlowOK() && taken == supplied && lookahead == 0 && |syms| + 2 <= c.litbuf && flush != NO_FLUSH
      requires Grown(bs, blocks, Most())
      modifies this`syms, this`matchAvailable, this`blockStart, this`blocks, this`full
      ensures SlowOK() && |syms| + 2 <= c.litbuf && Answer(bs, flush, b)
    {
      hide *;
      SlowLast();
      SlowFlush(flush == FINISH, bs);
      b := if full then if flush == FINISH then FINISH_STARTED else NEED_MORE
           else if flush == FINISH then FINISH_DONE else BLOCK_DONE;
      AnswerEnd(bs, flush, b);
    }

    /** deflate_slow */
    method DeflateSlow(flush: Flush) returns (b: BlockState)
      requires SlowOK() && |syms| + 2 <= c.litbuf && !full
      modifies window, head, prev, this
      ensures SlowOK() && |syms| + 2 <= c.litbuf && supplied == old(supplied) && Answer(old(blocks), flush, b)
      ensures finished == old(finished) && floors == old(floors)
    {
      hide *;
      var hashHead := 0;
      MaxDistIs(c);
      GrownSame(blocks, Most());
      while true
        invariant SlowOK() && |syms| + 2 <= c.litbuf && hashHead < 0x1_0000 && supplied == old(supplied)
        invariant Grown(old(blocks), blocks, Most()) && finished == old(finished) && floors == old(floors) && !full
        decreases |all| - slid - strstart
      {
        SlowOpen();
        Open(strstart + lookahead, 0);
        if lookahead < MIN_LOOKAHEAD {
          SlowFill();
          if lookahead < MIN_LOOKAHEAD && flush == NO_FLUSH {
            AnswerMore(old(blocks), flush);
            return NEED_MORE;
          }
          if lookahead == 0 {
            break;
          }
        }
        var leave;
        ghost var bs := blocks;
        hashHead, leave := SlowStep(hashHead);
        GrownOn(old(blocks), bs, blocks, Most());
        if leave {
          AnswerMore(old(blocks), flush);
          return NEED_MORE;
        }
        SlowOpen();
        Open(strstart + lookahead, 0);
      }
      b := SlowEnd(flush, old(blocks));
    }

    // ---- deflate_stored ----

    function MaxBlock(): int { MaxBlockOf(c) }

    /** Where deflate_stored is, as far as it decides where blocks end. */
    ghost function Here(): Place
      reads this
    {
      Place(slid, strstart, lookahead, blockStart, taken, supplied, Ends(blocks))
    }

    lemma HereOk()
      requires StoredGood()
      ensures OkPlace(c, Here())
    {
      hide StoredOK, CoreOK, Conf.Ok, Ends;
      Open(strstart + lookahead, 2);
      MaxBlockIs();
    }

    /** The current block is still in the window, and short enough not to slide out of it. */
    ghost predicate StoredGood()
      reads this, window, prev, head
    {
      && level == STORED_ONLY && Sound(strstart + lookahead, 2) && matchStart < WORD && syms == []
      && 0 <= blockStart <= strstart < blockStart + MaxBlock() && strstart < blockStart + MaxDist(c)
      && StoredOK(all, blocks, slid + blockStart, MaxBlock())
    }

    lemma StoredOpen()
      requires StoredGood()
      ensures level == STORED_ONLY && Sound(strstart + lookahead, 2) && matchStart < WORD && syms == []
      ensures 0 <= blockStart <= strstart < blockStart + MaxBlock() && strstart < blockStart + MaxDist(c)
      ensures StoredOK(all, blocks, slid + blockStart, MaxBlock())
    {
      hide Sound, StoredOK, MaxBlock;
    }

    lemma StoredClose()
      requires level == STORED_ONLY && Sound(strstart + lookahead, 2) && matchStart < WORD && syms == []
      requires 0 <= blockStart <= strstart < blockStart + MaxBlock() && strstart < blockStart + MaxDist(c)
      requires StoredOK(all, blocks, slid + blockStart, MaxBlock())
      ensures StoredGood()
    {
      hide Sound, StoredOK, MaxBlock;
    }

    lemma MaxBlockIs()
      requires c.Ok()
      ensures 0 < MaxBlock() <= 0xffff && MaxBlock() <= 4 * c.litbuf - 5 && MaxBlock() == MaxBlockOf(c)
      ensures MaxDist(c) > 0
    {
      hide Pow2;
      Sizes(c);
    }

    lemma KeyChange(n: nat)
      ensures Sound(n, 0) ==> Sound(n, 2)
      ensures Sound(n, 2) && strstart + 3 > n ==> Sound(n, 0)
      ensures Sound(n, 2) ==> top <= strstart
    {
      hide CoreOK, Conf.Ok;
      CoreKey(c, all, Now(n));
    }

    /** FLUSH_BLOCK of deflate_stored: the bytes are all in the window. */
    method FlushStored(eof: bool, ghost gs: seq<Block>)
      requires level == STORED_ONLY && Sound(strstart + lookahead, 2) && matchStart < WORD && syms == []
      requires Grown(gs, blocks, Most())
      requires 0 <= blockStart <= strstart <= blockStart + MaxBlock()
      requires StoredOK(all, blocks, slid + blockStart, MaxBlock())
      modifies this`syms, this`blockStart, this`blocks, this`full
      ensures StoredGood() && blockStart == strstart && Ends(blocks) == Ends(old(blocks)) + [slid + strstart]
      ensures Closed(gs, blocks, Most(), eof) && (!eof ==> Grown(gs, blocks, Most()))
    {
      hide *;
      Open(strstart + lookahead, 2);
      MaxBlockIs();
      ghost var bs, start := blocks, blockStart;
      FlushOnly(eof, 2);
      MostIs();
      Flushing(gs, bs, [], blocks[|bs|]);
      EndsMore(bs, blocks[|bs|]);
      StoredBlock(all, bs, slid + start, slid + strstart, eof, MaxBlock());
      StoredClose();
    }

    /** Moves strstart without inserting anything. */
    method MoveTo(to: nat, ghost n: nat)
      requires top <= to <= n && strstart + lookahead == n && Sound(n, 2)
      modifies this`strstart, this`lookahead
      ensures Sound(n, 2) && strstart == to && strstart + lookahead == n
    {
      hide *;
      Open(n, 2);
      CoreMove(c, all, Now(n), to);
      lookahead := strstart + lookahead - to;
      strstart := to;
      KeepBase();
      Close(n, 2);
    }

    /** Fills the window; the current block does not slide out of it. */
    method StoredFill()
      requires StoredGood() && lookahead <= 1
      modifies window, head, prev, this`strstart, this`matchStart, this`blockStart, this`slid, this`top
      modifies this`taken, this`lookahead, this`hash
      ensures old(OkPlace(c, Here())) && StoredGood() && Here() == Filled(c, old(Here()))
    {
      hide *;
      HereOk();
      StoredOpen();
      Open(strstart + lookahead, 2);
      KeyChange(strstart + lookahead);
      MaxDistIs(c);
      ghost var p := Here();
      HereIs();
      FillWindow();
      Open(strstart + lookahead, 0);
      KeyChange(strstart + lookahead);
      StoredClose();
      HereIs();
      FilledIs(c, p);
    }

    lemma HereIs()
      ensures Here() == Place(slid, strstart, lookahead, blockStart, taken, supplied, Ends(blocks))
    {
      hide Ends;
    }

    /** One round of deflate_stored after the window is filled; leave says that room for output has run out. */
    method StoredStep(ghost gs: seq<Block>) returns (leave: bool)
      requires StoredGood() && lookahead > 0 && Grown(gs, blocks, Most()) && !full
      modifies this`strstart, this`lookahead, this`syms, this`blockStart, this`blocks, this`full
      ensures StoredGood() && slid + strstart > old(slid + strstart) && (leave <==> full)
      ensures Grown(gs, blocks, Most())
      ensures old(OkPlace(c, Here()) && Here().look > 0) && Here() == Stepped(c, old(Here()))
    {
      hide *;
      HereOk();
      HereIs();
      StoredOpen();
      ghost var n, p := strstart + lookahead, Here();
      KeyChange(n);
      Open(n, 2);
      MaxBlockIs();
      SteppedIs(c, p);
      leave := false;
      var maxStart := blockStart + MaxBlock();
      MoveTo(strstart + lookahead, n);
      if strstart >= maxStart {
        MoveTo(maxStart, n);
        FlushStored(false, gs);
        if full {
          HereIs();
          return true;
        }
        StoredOpen();
      }
      if strstart - blockStart >= MaxDist(c) {
        FlushStored(false, gs);
        leave := full;
      } else {
        StoredClose();
      }
      HereIs();
    }

    /** It will come to where it would have come from p. */
    ghost predicate Onward(p: Place)
      reads this
    {
      && OkPlace(c, p) && OkPlace(c, Here()) && Rest(c, Here()) == Rest(c, p)
      && slid + strstart >= p.slid + p.next
    }

    lemma OnwardStart()
      requires OkPlace(c, Here())
      ensures Onward(Here())
    {
      hide OkPlace, Rest, Ends;
    }

    lemma OnwardFill(p: Place, q: Place)
      requires OkPlace(c, p) && OkPlace(c, q) && Rest(c, q) == Rest(c, p) && q.slid + q.next >= p.slid + p.next
      requires q.look <= 1 && Here() == Filled(c, q)
      ensures Onward(p) && Ready(c, Here()) == Here() && (lookahead == 0 ==> taken == supplied)
    {
      hide OkPlace, Rest, Filled, Ready, Ends;
      RestFilled(c, q);
    }

    lemma OnwardStep(p: Place, q: Place)
      requires OkPlace(c, p) && OkPlace(c, q) && Rest(c, q) == Rest(c, p) && q.slid + q.next >= p.slid + p.next
      requires q.look > 0 && Ready(c, q) == q && Here() == Stepped(c, q)
      ensures Onward(p)
    {
      hide OkPlace, Rest, Stepped, Ready, Ends;
      RestStepped(c, q);
    }

    lemma OnwardIs(p: Place)
      requires Onward(p)
      ensures OkPlace(c, p) && OkPlace(c, Here()) && Rest(c, Here()) == Rest(c, p) && slid + strstart >= p.slid + p.next
      ensures Here().look == lookahead && Here().slid == slid && Here().next == strstart
      ensures Here().taken == taken && Here().supplied == supplied
      ensures lookahead > 1 ==> Ready(c, Here()) == Here()
    {
      hide OkPlace, Rest, Ends;
    }

    /** The end of deflate_stored: everything is in blocks. */
    method StoredEnd(flush: Flush, ghost bs: seq<Block>) returns (b: BlockState)
      requires StoredGood() && taken == supplied && lookahead == 0 && flush != NO_FLUSH
      requires Grown(bs, blocks, Most())
      modifies this`syms, this`blockStart, this`blocks, this`full
      ensures StoredGood() && Answer(bs, flush, b) && Ends(blocks) == Ends(old(blocks)) + [supplied]
    {
      hide *;
      StoredOpen();
      Open(strstart, 2);
      FlushStored(flush == FINISH, bs);
      StoredOpen();
      b := if full then if flush == FINISH then FINISH_STARTED else NEED_MORE
           else if flush == FINISH then FINISH_DONE else BLOCK_DONE;
      AnswerEnd(bs, flush, b);
    }

    /** deflate_stored: when everything is taken the blocks end where the arithmetic says, and a flush ends one more. */
    method DeflateStored(flush: Flush) returns (b: BlockState)
      requires StoredGood() && !full
      modifies window, head, prev, this
      ensures StoredGood() && supplied == old(supplied) && Answer(old(blocks), flush, b)
      ensures finished == old(finished) && floors == old(floors)
      ensures flush == NO_FLUSH ==> Onward(old(Here()))
      ensures flush == NO_FLUSH ==> (lookahead == 0 && taken == supplied) || slid + strstart > old(slid + strstart)
      ensures b == BLOCK_DONE || b == FINISH_STARTED || b == FINISH_DONE ==>
        old(OkPlace(c, Here())) && Ends(blocks) == Rest(c, old(Here())).ends + [supplied]
    {
      hide *;
      HereOk();
      ghost var p, bs := Here(), blocks;
      HereIs();
      OnwardStart();
      MaxDistIs(c);
      GrownSame(bs, Most());
      while true
        invariant StoredGood() && supplied == old(supplied) && Onward(p) && Grown(bs, blocks, Most())
        invariant finished == old(finished) && floors == old(floors) && !full
        decreases |all| - slid - strstart
      {
        StoredOpen();
        Open(strstart + lookahead, 2);
        OnwardIs(p);
        ghost var q := Here();
        if lookahead <= 1 {
          StoredFill();
          OnwardFill(p, q);
          OnwardIs(p);
          if lookahead == 0 && flush == NO_FLUSH {
            AnswerMore(bs, flush);
            return NEED_MORE;
          }
          if lookahead == 0 {
            break;
          }
          q := Here();
        }
        var leave := StoredStep(bs);
        OnwardStep(p, q);
        StoredOpen();
        Open(strstart + lookahead, 2);
        if leave {
          AnswerMore(bs, flush);
          return NEED_MORE;
        }
      }
      RestingEnds(p);
      b := StoredEnd(flush, bs);
    }

    /** When everything is taken, it is where it would come to. */
    lemma RestingEnds(p: Place)
      requires Onward(p) && lookahead == 0 && taken == supplied
      ensures OkPlace(c, p) && Ends(blocks) == Rest(c, p).ends
    {
      hide OkPlace, Rest, Ends;
      RestHere(c, Here());
    }

    // ---- whole runs ----

    /** What the compression function of the level keeps. */
    ghost predicate Running()
      reads this, window, prev, head
    {
      match level
      case STORED_ONLY => StoredGood()
      case FAST => FastOK() && |syms| + 2 <= c.litbuf
      case LAZY => SlowOK() && |syms| + 2 <= c.litbuf
    }

    /** The final block, and no other, is marked as the last one when the stream is finished, and it is complete. */
    ghost predicate Ended()
      reads this`taken, this`supplied, this`lookahead, this`syms, this`blockStart, this`strstart, this`matchAvailable
      reads this`blocks, this`finished
    {
      if finished then Emptied() && blocks != [] && blocks[|blocks| - 1].last && NoneLast(blocks[..|blocks| - 1])
      else NoneLast(blocks)
    }

    ghost predicate Valid()
      reads this, window, prev, head
    {
      Running() && Ended()
    }

    /** deflateInit2 and lm_init, with tables that calloc has zeroed. */
    constructor (conf: Conf, l: Level, stream: seq<byte>)
      requires conf.Ok()
      ensures Valid() && c == conf && level == l && all == stream && supplied == taken == 0 && !full && !finished
      ensures Here() == Place(0, 0, 0, 0, 0, 0, []) && blocks == [] && syms == [] && floors == [] && fresh(window)
      ensures fresh(prev) && fresh(head)
    {
      hide *;
      Sizes(conf);
      c, level, all := conf, l, stream;
      window := new byte[2 * conf.wsize](_ => 0);
      prev := new Pos[conf.wsize](_ => 0);
      head := new Pos[conf.hsize](_ => 0);
      supplied, taken, hash, strstart, lookahead, blockStart := 0, 0, 0, 0, 0, 0;
      matchLength, prevLength, matchStart, prevMatch, matchAvailable := 2, 2, 0, 0, false;
      syms, full, finished := [], false, false;
      slid, ins, top, blocks, floors := 0, {}, 0, [], [];
      new;
      LastNone();
      CoreNew(c, all, Core(window[..], Chains(head[..], prev[..], ins, slid, top, Last(floors)), strstart, 0, hash));
      KeepBase();
      Close(0, 0);
      KeyChange(0);
      MaxDistIs(c);
      MaxBlockIs();
      HereIs();
      EndsNone();
      BufferBig(c);
      Beginning();
    }

    lemma Beginning()
      requires Sound(0, 0) && Sound(0, 2) && strstart == lookahead == 0 && blockStart == 0 && slid == 0 && syms == []
      requires blocks == [] && floors == [] && !finished && c.litbuf >= 2
      requires matchLength == prevLength == 2 && matchStart == 0 && !matchAvailable && MaxBlock() > 0 && MaxDist(c) > 0
      ensures Valid()
    {
      hide Sound, MaxBlock, MaxDist;
    }

    lemma RunningIs()
      ensures level == STORED_ONLY ==> (Running() <==> StoredGood())
      ensures level == FAST ==> (Running() <==> FastOK() && |syms| + 2 <= c.litbuf)
      ensures level == LAZY ==> (Running() <==> SlowOK() && |syms| + 2 <= c.litbuf)
    {
      hide StoredGood, FastOK, SlowOK;
    }

    lemma ValidIs()
      ensures Valid() <==> Running() && Ended()
    {
      hide Running, Ended;
    }

    lemma EndedIs()
      ensures Ended() <==>
              if finished then
                Emptied() && blocks != [] && blocks[|blocks| - 1].last && NoneLast(blocks[..|blocks| - 1])
              else NoneLast(blocks)
    {
      hide NoneLast, Emptied;
    }

    /** CLEAR_HASH: a full flush forgets the history. */
    method ClearHash(ghost n: nat, ghost k: nat)
      requires k != 1 && Sound(n, k)
      modifies head, this`ins, this`top, this`floors
      ensures Sound(n, k) && (forall j | 0 <= j < head.Length :: head[j] == 0) && ins == {}
      ensures floors == old(floors) + [slid + strstart]
    {
      hide *;
      Open(n, k);
      ghost var s := Now(n);
      var h := 0;
      while h < head.Length
        modifies head
        invariant h <= head.Length && forall j | 0 <= j < h :: head[j] == 0
      {
        head[h] := 0;
        h := h + 1;
      }
      LastMore(floors, slid + strstart);
      ins, top, floors := {}, strstart, floors + [slid + strstart];
      CoreClear(c, all, s, Chains(head[..], prev[..], ins, slid, top, Last(floors)), k);
      KeepBase();
      Close(n, k);
    }

    /** After a completed flush the history may be forgotten: no match will reach back beyond this place. */
    method Forget()
      requires Running() && Emptied() && !finished
      modifies head, this`ins, this`top, this`floors
      ensures Running() && (forall j | 0 <= j < head.Length :: head[j] == 0) && ins == {}
      ensures floors == old(floors) + [supplied]
    {
      hide *;
      RunningIs();
      EmptiedIs();
      match level
      case STORED_ONLY =>
        StoredOpen();
        Open(strstart, 2);
        ClearHash(strstart, 2);
        StoredClose();
        RunningIs();
      case FAST =>
        FastOpen();
        Open(strstart, 0);
        ClearHash(strstart, 0);
        Floored(old(floors));
        FastClose();
        RunningIs();
      case LAZY =>
        SlowOpen();
        Open(strstart, 0);
        ClearHash(strstart, 0);
        Floored(old(floors));
        SlowClose();
        RunningIs();
    }

    /** Where the history is forgotten a new start is made. */
    lemma Floored(fs: seq<nat>)
      requires Tallied(all, blocks, [], slid + strstart, slid + strstart, RulesOf(c, level, fs))
      requires floors == fs + [slid + strstart]
      ensures Tallied(all, blocks, [], slid + strstart, slid + strstart, RulesOf(c, level, floors))
    {
      hide Tallied;
      TallyFloor(all, blocks, slid + strstart, RulesOf(c, level, fs));
    }

    /** The compression function of the level. */
    method Run(flush: Flush) returns (b: BlockState)
      requires Running() && !full
      modifies window, head, prev, this
      ensures Running() && supplied == old(supplied) && finished == old(finished) && floors == old(floors)
      ensures Answer(old(blocks), flush, b)
      ensures level == STORED_ONLY && flush == NO_FLUSH ==>
        Onward(old(Here())) && ((lookahead == 0 && taken == supplied) || slid + strstart > old(slid + strstart))
    {
      hide *;
      RunningIs();
      match level
      case STORED_ONLY =>
        b := DeflateStored(flush);
        RunningIs();
      case FAST =>
        b := DeflateFast(flush);
        RunningIs();
      case LAZY =>
        b := DeflateSlow(flush);
        RunningIs();
    }

    /** More input from the caller, and room for output. */
    method Supply(more: nat)
      requires Valid() && supplied + more <= |all| && (finished ==> more == 0)
      modifies this`supplied, this`full
      ensures Valid() && supplied == old(supplied) + more && !full
    {
      hide *;
      ValidIs();
      EndedIs();
      EmptiedIs();
      RunningIs();
      ghost var n, k := strstart + lookahead, if level == STORED_ONLY then 2 else 0;
      if level == STORED_ONLY {
        StoredOpen();
      } else if level == FAST {
        FastOpen();
      } else {
        SlowOpen();
      }
      Open(n, k);
      ghost var s := Now(n);
      supplied := supplied + more;
      full := false;
      Sounds(n, k, s);
      if level == STORED_ONLY {
        StoredClose();
      } else if level == FAST {
        FastClose();
      } else {
        SlowClose();
      }
      RunningIs();
      EmptiedIs();
      EndedIs();
      ValidIs();
    }

    /**
     * One call of deflate with more input and some room for output. After the final
     * block it is refused unless the caller only goes on finishing.
     */
    method Call(more: nat, flush: Flush) returns (ok: bool, b: BlockState)
      requires Valid() && supplied + more <= |all|
      modifies window, head, prev, this
      ensures Valid() && (ok <==> !old(finished) || (flush == FINISH && more == 0))
      ensures !ok ==> unchanged(this) && unchanged(window) && unchanged(head) && unchanged(prev)
      ensures ok ==> supplied == old(supplied) + more
      ensures finished <==> old(finished) || b == FINISH_STARTED || b == FINISH_DONE
      ensures old(finished) ==> b == NEED_MORE && blocks == old(blocks)
      ensures !old(finished) ==> Answer(old(blocks), flush, b)
      ensures b == FINISH_STARTED || b == FINISH_DONE ==> blocks != [] && blocks[|blocks| - 1].last
      ensures (flush == NO_FLUSH ==> b == NEED_MORE) && (flush == FINISH ==> b != BLOCK_DONE)
      ensures b == BLOCK_DONE || b == FINISH_STARTED || b == FINISH_DONE ==> Emptied()
      ensures floors == old(floors) + if b == BLOCK_DONE && flush == FULL_FLUSH then [supplied] else []
      ensures b == BLOCK_DONE && flush == FULL_FLUSH ==> ins == {} && forall j | 0 <= j < head.Length :: head[j] == 0
      ensures level == STORED_ONLY && flush == NO_FLUSH && ok ==>
        Onward(old(Here()).(supplied := old(supplied) + more))
        && ((lookahead == 0 && taken == supplied) || slid + strstart > old(slid + strstart))
    {
      hide *;
      b := NEED_MORE;
      ok := !finished || (flush == FINISH && more == 0);
      if !ok {
        return;
      }
      HereIs();
      Supply(more);
      HereIs();
      ValidIs();
      if level == STORED_ONLY {
        StoredHere();
      }
      ghost var bs := blocks;
      EndedIs();
      EmptiedIs();
      MaxDistIs(c);
      TakenBelow();
      if taken < supplied || lookahead != 0 || (flush != NO_FLUSH && !finished) {
        b := Run(flush);
        AnswerIs(bs, flush, b);
        StillNoneLast(bs, blocks, Most(), b != NEED_MORE && b != BLOCK_DONE);
        if b == FINISH_STARTED || b == FINISH_DONE {
          SetFinished(b);
        }
        EndedIs();
        if b == BLOCK_DONE && flush == FULL_FLUSH {
          Forget();
        }
        ValidIs();
        EmptiedIs();
      } else if !finished {
        GrownSame(bs, Most());
        AnswerMore(bs, flush);
      }
      EndedIs();
    }

    lemma TakenBelow()
      requires Valid()
      ensures taken <= supplied
    {
      hide Tallied, CoreOK, Pending, StoredOK, Conf.Ok, Ended;
    }

    /** Never beyond the input. */
    lemma Within()
      requires Valid() && level == STORED_ONLY
      ensures slid + strstart <= |all| && supplied <= |all|
    {
      hide *;
      ValidIs();
      RunningIs();
      StoredOpen();
      Open(strstart + lookahead, 2);
    }

    lemma StoredHere()
      requires Valid() && level == STORED_ONLY
      ensures Onward(Here()) && taken <= supplied
    {
      hide *;
      ValidIs();
      RunningIs();
      HereOk();
      OnwardStart();
      StoredOpen();
      Open(strstart + lookahead, 2);
    }

    method SetFinished(ghost b: BlockState)
      requires Running() && Emptied() && blocks != [] && blocks[|blocks| - 1].last
      requires NoneLast(blocks[..|blocks| - 1])
      modifies this`finished
      ensures Running() && Ended() && finished
    {
      hide *;
      RunningIs();
      ghost var n, k := strstart + lookahead, if level == STORED_ONLY then 2 else 0;
      if level == STORED_ONLY {
        StoredOpen();
      } else if level == FAST {
        FastOpen();
      } else {
        SlowOpen();
      }
      Open(n, k);
      ghost var s := Now(n);
      finished := true;
      Sounds(n, k, s);
      if level == STORED_ONLY {
        StoredClose();
      } else if level == FAST {
        FastClose();
      } else {
        SlowClose();
      }
      RunningIs();
      EndedIs();
    }

    /**
     * At any time the tokens of all blocks and of the one in the making expand
     * to the input before strstart, less the byte that deflate_slow holds back.
     */
    lemma Compressed()
      requires Valid() && level != STORED_ONLY
      ensures 0 <= slid + strstart - (if level == LAZY && matchAvailable then 1 else 0) <= |all|
      ensures Expand([], Tokens()) == all[..slid + strstart - if level == LAZY && matchAvailable then 1 else 0]
    {
      hide *;
      TalliedNow();
      TokensIs();
      TalliedExpand(all, blocks, syms, slid + blockStart,
                    slid + strstart - (if level == LAZY && matchAvailable then 1 else 0), RulesOf(c, level, floors));
    }

    lemma TalliedNow()
      requires Valid() && level != STORED_ONLY
      ensures slid + strstart - (if level == LAZY && matchAvailable then 1 else 0) >= 0
      ensures Tallied(all, blocks, syms, slid + blockStart,
                      slid + strstart - (if level == LAZY && matchAvailable then 1 else 0), RulesOf(c, level, floors))
    {
      hide *;
      ValidIs();
      RunningIs();
      if level == FAST {
        FastOpen();
      } else {
        SlowOpen();
      }
    }

    /**
     * The tokens of the blocks since a full flush, and those of the one in the making, expand to the
     * input from there on although nothing before is known: decompression can start again at that place.
     */
    lemma Restarts(i: nat)
      requires Valid() && level != STORED_ONLY && i < |floors|
      ensures floors[i] <= slid + strstart - (if level == LAZY && matchAvailable then 1 else 0) <= |all|
      ensures Expand([], TokensFrom(blocks, floors[i]) + syms)
        == all[floors[i]..slid + strstart - if level == LAZY && matchAvailable then 1 else 0]
    {
      hide *;
      TalliedNow();
      RulesIs(c, level, floors);
      TalliedFrom(all, blocks, syms, slid + blockStart,
                  slid + strstart - (if level == LAZY && matchAvailable then 1 else 0), RulesOf(c, level, floors), i);
    }

    /** Once a flush is through, the blocks alone expand to all the input supplied. */
    lemma Flushed()
      requires Valid() && Emptied()
      ensures level != STORED_ONLY ==> Expand([], AllTokens(blocks)) == all[..supplied]
      ensures level == STORED_ONLY ==> AllStored(blocks) == all[..supplied]
      ensures supplied <= |all|
    {
      hide *;
      ValidIs();
      RunningIs();
      EmptiedIs();
      if level == STORED_ONLY {
        StoredOpen();
        Open(strstart, 2);
        StoredExpand(all, blocks, slid + blockStart, MaxBlock());
      } else {
        if level == FAST {
          FastOpen();
        } else {
          SlowOpen();
        }
        Open(strstart, 0);
        Compressed();
        TokensIs();
        assert AllTokens(blocks) + [] == AllTokens(blocks);
      }
    }

    /** When the stream is finished everything is in blocks, of which only the final one is marked as the last. */
    lemma Finished()
      requires Valid()
      ensures finished ==>
        Emptied() && blocks != [] && forall i | 0 <= i < |blocks| :: blocks[i].last <==> i == |blocks| - 1
      ensures !finished ==> forall i | 0 <= i < |blocks| :: !blocks[i].last
    {
      hide Running, Emptied;
      if finished {
        var bs := blocks[..|blocks| - 1];
        forall i | 0 <= i < |bs|
          ensures !blocks[i].last
        {
          assert !bs[i].last;
        }
      }
    }

    /**
     * Every block stands for the input between its ends, in order, and each of its tokens is one that the format
     * has and the configuration allows: no matches at all with HUFFMAN_ONLY, and with lazy matching none of
     * length 3 from farther than 4096, nor any of less than 6 for filtered data.
     */
    lemma BlocksStand()
      requires Valid() && level != STORED_ONLY
      ensures slid + blockStart >= 0 && BlocksOK(all, blocks, slid + blockStart, RulesOf(c, level, floors))
      ensures forall t | t in Tokens() && t.Match? :: 3 <= t.len <= 258 && 1 <= t.dist <= c.wsize - 262
      ensures forall t | t in Tokens() && t.Match? :: c.strategy != HUFFMAN_ONLY
      ensures forall t | t in Tokens() && t.Match? && level == LAZY ::
          (t.len == 3 ==> t.dist <= 4096) && (c.strategy == FILTERED ==> t.len >= 6)
    {
      hide *;
      TalliedNow();
      TokensIs();
      TokensLegal(all, blocks, syms, slid + blockStart,
                  slid + strstart - (if level == LAZY && matchAvailable then 1 else 0), RulesOf(c, level, floors));
      forall t | t in Tokens()
        ensures Legal(t, RulesOf(c, level, floors))
      {
      }
      forall t | t in Tokens() && t.Match?
        ensures 3 <= t.len <= 258 && 1 <= t.dist <= c.wsize - 262 && c.strategy != HUFFMAN_ONLY
        ensures level == LAZY ==> (t.len == 3 ==> t.dist <= 4096) && (c.strategy == FILTERED ==> t.len >= 6)
      {
        LegalIs(c, level, floors, t);
      }
    }

    lemma KeepBase()
      requires c.Ok() && window.Length == 2 * c.wsize && prev.Length == c.wsize && head.Length == c.hsize
      requires prev != head
      requires taken <= supplied <= |all|
      ensures Base()
    {
      hide Conf.Ok;
    }
  }

  lemma LinkBelow(c: Conf, all: seq<byte>, q: Chains, v: nat, i: nat, h: nat)
    requires Link(c, all, q, v, i, h)
    ensures v <= i
  {
    hide HashAt;
  }

  lemma NearIs(c: Conf, a: nat, h: nat)
    ensures Near(c, a, h) <==> 1 <= h <= a <= h + MaxDist(c)
  {
  }

  lemma HeadsIs(c: Conf, all: seq<byte>, s: Core, cur: nat)
    requires Heads(c, all, s, cur)
    ensures Candidate(c, all, s, cur)
  {
    hide Candidate, NoneBetween;
  }

  lemma HeadsHere(c: Conf, all: seq<byte>, s: Core, q: Chains, v: nat)
    requires Link(c, all, q, v, s.strstart, HashAt(c, all, q.slid + s.strstart)) && q.slid == s.q.slid
    requires s.q.ins == q.ins + {q.slid + s.strstart}
    requires v != 0 && s.strstart <= v + MaxDist(c)
    ensures Heads(c, all, s, v)
  {
    hide HashAt;
    HeadCandidate(c, all, s, q, v);
    forall j: nat | v < j < s.strstart && In(s.q, j)
      ensures HashAt(c, all, s.q.slid + j) != HashAt(c, all, s.q.slid + s.strstart)
    {
      assert In(q, j);
    }
  }

  lemma FastBestIs(c: Conf, w: seq<byte>, prev: seq<nat>, a: nat, lookahead: nat, h: nat, m: Best)
    ensures FastBest(c, w, prev, a, lookahead, h, m) ==
            if Near(c, a, h) && c.strategy != HUFFMAN_ONLY
            then CutBest(Longest(c, w, prev, a, lookahead, h, Best(2, m.start)), lookahead) else m
  {
    hide Near, CutBest, Longest;
  }

  lemma TokenIs(a: nat, b: Best)
    ensures forall lit :: TokenOf(a, b, lit) == if b.len >= 3 then Match(Sub32(a, b.start), b.len) else Literal(lit)
  {
  }

  lemma SlowBestIs(c: Conf, w: seq<byte>, prev: seq<nat>, a: nat, lookahead: nat, h: nat, m: Best)
    ensures SlowBest(c, w, prev, a, lookahead, h, m) ==
            if Near(c, a, h) && m.len < c.lazy && c.strategy != HUFFMAN_ONLY
            then
              var b := CutBest(Longest(c, w, prev, a, lookahead, h, m), lookahead);
              if b.len <= 5 && (c.strategy == FILTERED || (b.len == 3 && Sub32(a, b.start) > 4096))
              then Best(2, b.start) else b
            else Best(2, m.start)
    ensures TOO_FAR == 4096
  {
    hide Near, CutBest, Longest, Sub32;
  }

  lemma SlowTokensIs(before: nat, waits: bool, m: Best, b: Best, lit: byte)
    ensures Adopted(m, b) <==> m.len >= 3 && b.len <= m.len
    ensures SlowTokens(before, waits, m, b, lit) ==
            if Adopted(m, b) then [Match(Sub32(before, m.start), m.len)] else if waits then [Literal(lit)] else []
  {
    hide Sub32;
  }

  lemma SlowAllowed(c: Conf, all: seq<byte>, floors: seq<nat>, p: nat, dist: nat, n: nat)
    requires Genuine(all, Last(floors), p, dist, n) && 3 <= n <= MAX_MATCH && dist <= MaxDist(c)
    requires c.strategy != HUFFMAN_ONLY && (n <= 5 ==> c.strategy != FILTERED && (n == 3 ==> dist <= TOO_FAR))
    ensures Allowed(all, RulesOf(c, LAZY, floors), p, dist, n)
  {
  }

  lemma AllowedNear(c: Conf, all: seq<byte>, floors: seq<nat>, p: int, dist: nat, n: nat)
    requires Allowed(all, RulesOf(c, LAZY, floors), p, dist, n)
    ensures 1 <= dist <= MaxDist(c)
  {
  }

  lemma LegalIs(c: Conf, level: Level, floors: seq<nat>, t: Token)
    requires Legal(t, RulesOf(c, level, floors)) && t.Match?
    ensures 3 <= t.len <= 258 && 1 <= t.dist <= c.wsize - 262 && c.strategy != HUFFMAN_ONLY
    ensures level == LAZY ==> (t.len == 3 ==> t.dist <= 4096) && (c.strategy == FILTERED ==> t.len >= 6)
  {
  }

  lemma RulesIs(c: Conf, level: Level, floors: seq<nat>)
    ensures RulesOf(c, level, floors).floors == floors
  {
  }

  lemma LastNone()
    ensures Last([]) == 0
  {
  }

  lemma LastMore(floors: seq<nat>, f: nat)
    ensures Last(floors + [f]) == f
  {
  }

  lemma FastAllowed(c: Conf, all: seq<byte>, floors: seq<nat>, p: nat, dist: nat, n: nat)
    requires Genuine(all, Last(floors), p, dist, n) && 3 <= n <= MAX_MATCH && dist <= MaxDist(c)
    requires c.strategy != HUFFMAN_ONLY
    ensures Allowed(all, RulesOf(c, FAST, floors), p, dist, n)
  {
  }

  lemma GenuineIs(all: seq<byte>, floor: nat, p: int, dist: int, n: int)
    requires Agree(all, p, dist, n) && floor + dist <= p
    ensures Genuine(all, floor, p, dist, n)
  {
    hide Agree;
  }

  lemma InsertedIs(c: Conf, all: seq<byte>, s: Core, h: nat, q: Chains)
    requires h < |s.q.head| && Slot(c, s.strstart) < |s.q.prev|
    requires q.head == s.q.head[h := s.strstart] && q.prev == s.q.prev[Slot(c, s.strstart) := s.q.head[h]]
    requires q.ins == s.q.ins + {s.q.slid + s.strstart} && q.slid == s.q.slid && q.top == s.strstart + 1
    requires q.floor == s.q.floor
    ensures q == Inserted(c, all, s.q, s.strstart, h)
  {
    hide Slot;
  }

  lemma ChainLong(c: Conf)
    requires c.Ok()
    ensures c.chain >= 4
  {
    hide Pow2;
  }

  lemma MaxDistIs(c: Conf)
    ensures MaxDist(c) == c.wsize - 262 && MIN_LOOKAHEAD == 262 && MAX_MATCH == 258 && MIN_MATCH == 3
    ensures WORD == 0x1_0000_0000
  {
  }

  lemma FirstBytes(w: seq<byte>, a: nat, b: nat)
    requires a + 1 < |w| && b + 1 < |w| && w[a] == w[b] && w[a + 1] == w[b + 1]
    ensures EqAt(w, a, b, 0) && EqAt(w, a, b, 1)
  {
  }

  lemma SameShorter(w: seq<byte>, a: nat, b: nat, m: nat, n: nat)
    requires Same(w, a, b, m) && n <= m
    ensures Same(w, a, b, n)
  {
  }

  lemma WinSlice(c: Conf, all: seq<byte>, w: seq<byte>, slid: nat, n: nat, i: nat, j: nat)
    requires i <= j <= n && WinOK(c, all, w, slid, n)
    ensures n <= |w| && slid + n <= |all| && w[i..j] == all[slid + i..slid + j]
  {
  }

  lemma BufferBig(c: Conf)
    requires c.Ok()
    ensures c.litbuf >= 128
  {
    hide Pow2;
  }

  lemma StoredBlock(all: seq<byte>, bs: seq<Block>, start: nat, end: nat, eof: bool, most: int)
    requires StoredOK(all, bs, start, most) && start <= end <= |all| && end - start <= most
    ensures StoredOK(all, bs + [Block(start, end, [], Some(all[start..end]), eof)], end, most)
  {
    hide StoredOK;
    StoredFlush(all, bs, start, most, Block(start, end, [], Some(all[start..end]), eof));
  }

  /**
   * longest_match is deterministic: of two objects at the same place of one input,
   * with the same chains, both return the same length, and if it is longer than the
   * match before, the same place, whatever their windows hold beyond the input.
   */
  method SameMatch(x: Deflate, y: Deflate, hashHead: nat, ghost n: nat, ghost live: bool) returns (r: nat, r': nat)
    requires x != y && x.Sound(n, 1) && y.Sound(n, 1) && x.c == y.c && x.all == y.all && x.slid == y.slid
    requires x.prev[..] == y.prev[..]
    requires x.strstart == y.strstart && x.lookahead == y.lookahead && x.prevLength == y.prevLength
    requires x.matchStart == y.matchStart
    requires 1 <= hashHead <= x.strstart && x.strstart + MIN_LOOKAHEAD <= 2 * x.c.wsize
    requires x.strstart + x.lookahead == n && 1 <= x.prevLength <= MAX_MATCH && x.matchStart < WORD
    requires live ==>
      x.strstart + 3 <= n && Heads(x.c, x.all, x.Now(n), hashHead) && Heads(y.c, y.all, y.Now(n), hashHead)
    modifies x`matchStart, y`matchStart
    ensures r == r' && (r > x.prevLength ==> x.matchStart == y.matchStart)
  {
    hide *;
    x.Open(n, 1);
    y.Open(n, 1);
    WindowsAlike(x.c, x.all, x.Now(n), y.Now(n));
    x.LinksBack(n);
    ghost var w, v, b := x.window[..], y.window[..], Best(x.prevLength, x.matchStart);
    LongestAlike(x.c, w, v, x.prev[..], x.strstart, x.lookahead, hashHead, b);
    CutIs(Longest(x.c, w, x.prev[..], x.strstart, x.lookahead, hashHead, b), x.lookahead);
    CutIs(Longest(x.c, v, x.prev[..], x.strstart, x.lookahead, hashHead, b), x.lookahead);
    r := x.LongestMatch(hashHead, n, live);
    r' := y.LongestMatch(hashHead, n, live);
  }
}
