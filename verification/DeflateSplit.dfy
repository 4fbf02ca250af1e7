/** When the blocks of deflate_stored depend on how the input is split among the calls. */
module DeflateSplit {
  import opened Stream
  import opened HashChains
  import opened DeflateCore
  import opened StoredRounds
  import opened DeflateBlocks
  import opened DeflateMatcher

  function Sum(pieces: seq<nat>): nat {
    if pieces == [] then 0 else Sum(pieces[..|pieces| - 1]) + pieces[|pieces| - 1]
  }

  predicate NoneEmpty(pieces: seq<nat>) { forall i | 0 <= i < |pieces| :: pieces[i] > 0 }

  lemma FirstOk(c: Conf)
    requires c.Ok()
    ensures OkPlace(c, FirstPlace())
  {
    Sizes(c);
  }

  lemma {:induction false} FedAll(c: Conf, pieces: seq<nat>)
    requires OkPlace(c, FirstPlace())
    ensures Fed(c, pieces).supplied == Sum(pieces)
  {
    hide OkPlace, Rest;
    if pieces != [] {
      FedAll(c, pieces[..|pieces| - 1]);
    }
  }

  // ---- blocks of the largest size only ----

  function Times(k: nat, m: nat): nat { if k == 0 then 0 else Times(k - 1, m) + m }

  function EvenEnds(k: nat, m: nat): seq<nat> { if k == 0 then [] else EvenEnds(k - 1, m) + [Times(k, m)] }

  lemma {:induction false} TimesGap(j: nat, k: nat, m: nat)
    requires j < k
    ensures Times(j, m) + m <= Times(k, m)
  {
    if j < k - 1 {
      TimesGap(j, k - 1, m);
    }
  }

  /** All blocks so far have the largest size. */
  predicate Even(c: Conf, p: Place)
    requires MaxBlockOf(c) > 0
  {
    p.ends == EvenEnds(|p.ends|, MaxBlockOf(c)) && p.slid + p.start == Times(|p.ends|, MaxBlockOf(c))
  }

  lemma {:induction false} EvenRest(c: Conf, p: Place)
    requires OkPlace(c, p) && MaxBlockOf(c) <= MaxDist(c) && Even(c, p)
    ensures Even(c, Rest(c, p))
    decreases p.supplied - p.slid - p.next
  {
    var q := Ready(c, p);
    if q.look > 0 {
      var k, m := |q.ends|, MaxBlockOf(c);
      assert EvenEnds(k + 1, m) == EvenEnds(k, m) + [Times(k + 1, m)];
      EvenRest(c, Stepped(c, q));
    }
  }

  lemma {:induction false} EvenFed(c: Conf, pieces: seq<nat>)
    requires OkPlace(c, FirstPlace()) && MaxBlockOf(c) <= MaxDist(c)
    ensures Even(c, Fed(c, pieces))
  {
    hide OkPlace, Rest;
    if pieces != [] {
      var p := Fed(c, pieces[..|pieces| - 1]);
      EvenFed(c, pieces[..|pieces| - 1]);
      OkMore(c, p, pieces[|pieces| - 1]);
      EvenRest(c, p.(supplied := p.supplied + pieces[|pieces| - 1]));
    }
  }

  lemma OkMore(c: Conf, p: Place, n: nat)
    requires OkPlace(c, p)
    ensures OkPlace(c, p.(supplied := p.supplied + n))
  {
  }

  /** Then the blocks depend on the amount of input only. */
  lemma EvenSame(c: Conf, p: Place, q: Place)
    requires OkPlace(c, p) && OkPlace(c, q) && Even(c, p) && Even(c, q)
    requires p.look == q.look == 0 && p.taken == p.supplied == q.supplied == q.taken
    ensures p.ends == q.ends
  {
    if |p.ends| < |q.ends| {
      TimesGap(|p.ends|, |q.ends|, MaxBlockOf(c));
    } else if |q.ends| < |p.ends| {
      TimesGap(|q.ends|, |p.ends|, MaxBlockOf(c));
    }
  }

  // ---- input no longer than MAX_DIST ----

  lemma ShortRest(c: Conf, p: Place)
    requires OkPlace(c, p) && p.slid == 0 && p.start == 0 && p.look == 0 && p.ends == []
    requires p.taken < p.supplied <= MaxDist(c) < MaxBlockOf(c)
    ensures Rest(c, p) == if p.supplied < MaxDist(c) then Place(0, p.supplied, 0, 0, p.supplied, p.supplied, [])
                          else Place(0, p.supplied, 0, p.supplied, p.supplied, p.supplied, [p.supplied])
  {
    var q := Stepped(c, Ready(c, p));
    assert Ready(c, q) == q;
    assert Rest(c, q) == q;
  }

  lemma {:induction false} ShortFed(c: Conf, pieces: seq<nat>)
    requires OkPlace(c, FirstPlace()) && NoneEmpty(pieces) && Sum(pieces) <= MaxDist(c) < MaxBlockOf(c)
    ensures Fed(c, pieces).ends == if Sum(pieces) == MaxDist(c) then [MaxDist(c)] else []
    ensures Sum(pieces) < MaxDist(c) ==> Fed(c, pieces) == Place(0, Sum(pieces), 0, 0, Sum(pieces), Sum(pieces), [])
  {
    hide Rest;
    if pieces != [] {
      ShortFed(c, pieces[..|pieces| - 1]);
      var p := Fed(c, pieces[..|pieces| - 1]);
      ShortRest(c, p.(supplied := p.supplied + pieces[|pieces| - 1]));
    }
  }

  // ---- longer input ----

  lemma FedOne(c: Conf, n: nat)
    requires OkPlace(c, FirstPlace())
    ensures Fed(c, [n]) == Rest(c, FirstPlace().(supplied := n)) && Sum([n]) == n
  {
    hide Rest;
    assert [n][..0] == [];
  }

  lemma FedTwo(c: Conf, m: nat, n: nat)
    requires OkPlace(c, FirstPlace())
    ensures Fed(c, [m]).ends <= Fed(c, [m, n]).ends && Sum([m, n]) == m + n
  {
    hide Rest;
    assert [m, n][..1] == [m];
    FedOne(c, m);
  }

  /** The first block of input that comes at once ends beyond MAX_DIST. */
  lemma FirstEnd(c: Conf, n: nat)
    requires OkPlace(c, FirstPlace()) && n > MaxDist(c) && MaxBlockOf(c) > MaxDist(c)
    ensures |Fed(c, [n]).ends| > 0 && Fed(c, [n]).ends[0] > MaxDist(c)
  {
    FedOne(c, n);
    var p := FirstPlace().(supplied := n);
    var q := Stepped(c, Ready(c, p));
    assert q.ends <= Rest(c, q).ends && Rest(c, p) == Rest(c, q);
  }

  /**
   * All ways to split n bytes give the same blocks if and only if the
   * input is no longer than MAX_DIST or no block is longer than that.
   */
  lemma SplitMatters(c: Conf, n: nat)
    requires c.Ok() && n > 0
    ensures OkPlace(c, FirstPlace())
    ensures (n <= MaxDist(c) || MaxBlockOf(c) <= MaxDist(c)) <==>
            forall pieces | NoneEmpty(pieces) && Sum(pieces) == n :: Fed(c, pieces).ends == Fed(c, [n]).ends
  {
    hide OkPlace, Fed, Sum;
    FirstOk(c);
    FedOne(c, n);
    if n <= MaxDist(c) || MaxBlockOf(c) <= MaxDist(c) {
      forall pieces | NoneEmpty(pieces) && Sum(pieces) == n
        ensures Fed(c, pieces).ends == Fed(c, [n]).ends
      {
        if MaxBlockOf(c) <= MaxDist(c) {
          EvenFed(c, pieces);
          EvenFed(c, [n]);
          FedAll(c, pieces);
          FedAll(c, [n]);
          EvenSame(c, Fed(c, pieces), Fed(c, [n]));
        } else {
          ShortFed(c, pieces);
          ShortFed(c, [n]);
        }
      }
    } else {
      var far: nat := FarIs(c);
      FedTwo(c, far, n - far);
      FedOne(c, far);
      ShortFed(c, [far]);
      FirstEnd(c, n);
      var two := [far, n - far];
      assert NoneEmpty(two) && Sum(two) == n;
      assert Fed(c, two).ends[0] == far;
    }
  }

  lemma FarIs(c: Conf) returns (far: nat)
    requires c.Ok()
    ensures far == MaxDist(c) > 0
  {
    Sizes(c);
    far := MaxDist(c);
  }

  // ---- the blocks are those of the model ----

  /** The object will come to the given place, and has nothing left to deal with if done. */
  ghost predicate ComesTo(x: Deflate, conf: Conf, stream: seq<byte>, p: Place, done: bool)
    reads x, x.window, x.prev, x.head
  {
    && x.Valid() && !x.finished && x.level == STORED_ONLY && x.c == conf && x.all == stream
    && OkPlace(conf, x.Here()) && Rest(conf, x.Here()) == p
    && (done ==> x.lookahead == 0 && x.taken == x.supplied)
  }

  lemma ComesFirst(x: Deflate, conf: Conf, stream: seq<byte>)
    requires conf.Ok() && x.Valid() && !x.finished && x.level == STORED_ONLY && x.c == conf && x.all == stream
    requires x.Here() == FirstPlace()
    ensures OkPlace(conf, FirstPlace()) && ComesTo(x, conf, stream, Fed(conf, []), true)
  {
    hide Deflate.Valid, Conf.Ok;
    FirstOk(conf);
    assert Rest(conf, FirstPlace()) == FirstPlace();
  }

  /** It makes no difference whether a slide comes before or after more input. */
  lemma RestMore(c: Conf, p: Place, n: nat)
    requires OkPlace(c, p) && p.look == 0 && p.taken == p.supplied
    ensures OkPlace(c, Rest(c, p).(supplied := p.supplied + n)) && OkPlace(c, p.(supplied := p.supplied + n))
    ensures Rest(c, p.(supplied := p.supplied + n)) == Rest(c, Rest(c, p).(supplied := p.supplied + n))
  {
    var v, q := p.(supplied := p.supplied + n), Rest(c, p).(supplied := p.supplied + n);
    assert Rest(c, p) == Filled(c, p);
    assert Ready(c, v) == Ready(c, q);
  }

  lemma ComesMore(x: Deflate, conf: Conf, stream: seq<byte>, pieces: seq<nat>, i: nat)
    requires OkPlace(conf, FirstPlace()) && i < |pieces| && ComesTo(x, conf, stream, Fed(conf, pieces[..i]), true)
    requires Sum(pieces[..i + 1]) <= |stream|
    ensures x.supplied + pieces[i] <= |x.all| && Sum(pieces[..i + 1]) == x.supplied + pieces[i]
    ensures OkPlace(conf, x.Here().(supplied := x.supplied + pieces[i]))
    ensures Rest(conf, x.Here().(supplied := x.supplied + pieces[i])) == Fed(conf, pieces[..i + 1])
  {
    hide Deflate.Valid, OkPlace, Rest;
    assert pieces[..i + 1][..i] == pieces[..i];
    FedAll(conf, pieces[..i]);
    RestMore(conf, x.Here(), pieces[i]);
    RestHere(conf, x.Here());
  }

  lemma ComesOn(x: Deflate, conf: Conf, stream: seq<byte>, p: Place, q: Place)
    requires x.Valid() && !x.finished && x.level == STORED_ONLY && x.c == conf && x.all == stream && x.Onward(q)
    requires OkPlace(conf, q) && Rest(conf, q) == p
    ensures ComesTo(x, conf, stream, p, x.lookahead == 0 && x.taken == x.supplied)
    ensures x.Here().(supplied := x.supplied) == x.Here() && x.slid + x.strstart <= |stream|
  {
    hide Deflate.Valid, OkPlace, Rest, Ends;
    x.Within();
  }

  lemma {:induction false} SumMono(pieces: seq<nat>, i: nat)
    requires i <= |pieces|
    ensures Sum(pieces[..i]) <= Sum(pieces)
    decreases |pieces| - i
  {
    if i < |pieces| {
      SumMono(pieces, i + 1);
      assert pieces[..i + 1][..i] == pieces[..i];
    } else {
      assert pieces[..i] == pieces;
    }
  }

  /** deflate_stored on input that arrives in pieces, however much room for output there is at each call. */
  method FeedStored(conf: Conf, stream: seq<byte>, pieces: seq<nat>) returns (x: Deflate)
    requires conf.Ok() && Sum(pieces) <= |stream|
    ensures fresh(x) && x.Valid() && x.level == STORED_ONLY && x.c == conf && x.all == stream
    ensures x.lookahead == 0 && x.taken == x.supplied == Sum(pieces)
    ensures OkPlace(conf, FirstPlace()) && Ends(x.blocks) == Fed(conf, pieces).ends
  {
    hide *;
    x := new Deflate(conf, STORED_ONLY, stream);
    FirstIs();
    ComesFirst(x, conf, stream);
    assert pieces[..0] == [];
    var i := 0;
    while i < |pieces|
      invariant i <= |pieces| && fresh(x) && fresh(x.window) && fresh(x.head) && fresh(x.prev)
      invariant OkPlace(conf, FirstPlace()) && ComesTo(x, conf, stream, Fed(conf, pieces[..i]), true)
    {
      SumMono(pieces, i + 1);
      ComesMore(x, conf, stream, pieces, i);
      ghost var p, q := Fed(conf, pieces[..i + 1]), x.Here().(supplied := x.supplied + pieces[i]);
      ComesIs(x, conf, stream, Fed(conf, pieces[..i]), true);
      var ok, b := x.Call(pieces[i], NO_FLUSH);
      ComesOn(x, conf, stream, p, q);
      while !(x.lookahead == 0 && x.taken == x.supplied)
        invariant fresh(x) && fresh(x.window) && fresh(x.head) && fresh(x.prev) && x.slid + x.strstart <= |stream|
        invariant ComesTo(x, conf, stream, p, x.lookahead == 0 && x.taken == x.supplied)
        decreases !(x.lookahead == 0 && x.taken == x.supplied), |stream| - x.slid - x.strstart
      {
        ComesIs(x, conf, stream, p, false);
        q := x.Here();
        ok, b := x.Call(0, NO_FLUSH);
        ComesOn(x, conf, stream, p, q);
      }
      i := i + 1;
    }
    assert pieces[..i] == pieces;
    ComesLast(x, conf, stream, pieces);
  }

  lemma FirstIs()
    ensures FirstPlace() == Place(0, 0, 0, 0, 0, 0, [])
  {
  }

  lemma ComesIs(x: Deflate, conf: Conf, stream: seq<byte>, p: Place, done: bool)
    requires ComesTo(x, conf, stream, p, done)
    ensures x.Valid() && !x.finished && x.level == STORED_ONLY && x.c == conf && x.all == stream
    ensures OkPlace(conf, x.Here()) && Rest(conf, x.Here()) == p && x.Here().(supplied := x.supplied) == x.Here()
    ensures x.supplied <= |stream|
  {
    hide Deflate.Valid, OkPlace, Rest, Ends;
    x.Within();
  }

  lemma ComesLast(x: Deflate, conf: Conf, stream: seq<byte>, pieces: seq<nat>)
    requires OkPlace(conf, FirstPlace()) && ComesTo(x, conf, stream, Fed(conf, pieces), true)
    ensures x.Valid() && x.level == STORED_ONLY && x.c == conf && x.all == stream
    ensures x.lookahead == 0 && x.taken == x.supplied == Sum(pieces) && Ends(x.blocks) == Fed(conf, pieces).ends
  {
    hide Deflate.Valid, OkPlace, Rest, Ends;
    RestHere(conf, x.Here());
    FedAll(conf, pieces);
  }
}
