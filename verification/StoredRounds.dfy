/** deflate_stored as arithmetic: where its blocks end, whatever the bytes are. */
module StoredRounds {
  import opened HashChains
  import opened DeflateCore

  /** max_block_size: what the format and the pending buffer, with a header of five bytes, allow. */
  function MaxBlockOf(c: Conf): int {
    if 4 * c.litbuf - 5 < 0xffff then 4 * c.litbuf - 5 else 0xffff
  }

  /** ... that is the most for which there is room. */
  lemma MaxBlockIsMost(c: Conf, m: int)
    ensures m <= MaxBlockOf(c) <==> m <= 0xffff && m + 5 <= 4 * c.litbuf
  {
  }

  /**
   * Where deflate_stored is: the window begins at slid in the input, next and start are window indices of the next byte
   * and of the block, look bytes are ahead, taken of supplied bytes are read, and ends are where blocks have ended.
   */
  datatype Place = Place(slid: nat, next: nat, look: nat, start: int, taken: nat, supplied: nat, ends: seq<nat>)

  predicate OkPlace(c: Conf, p: Place) {
    && c.wsize > MIN_LOOKAHEAD && MaxBlockOf(c) > 0
    && 0 <= p.start <= p.next < p.start + MaxBlockOf(c) && p.next < p.start + MaxDist(c)
    && p.next + p.look <= 2 * c.wsize && p.slid + p.next + p.look == p.taken <= p.supplied
  }

  /** fill_window: the window slides when little room is left, and as much as there is room for is read. */
  function Filled(c: Conf, p: Place): (q: Place)
    requires OkPlace(c, p)
    ensures OkPlace(c, q) && q.ends == p.ends && q.supplied == p.supplied && q.slid + q.next == p.slid + p.next
    ensures q.slid + q.start == p.slid + p.start && q.taken >= p.taken
    ensures q.look == 0 ==> q.taken == q.supplied
  {
    var far := MaxDist(c);
    var w := c.wsize;
    var q := if p.next >= w + far then p.(slid := p.slid + w, next := p.next - w, start := p.start - w) else p;
    var taken := if p.supplied <= q.slid + 2 * c.wsize then p.supplied else q.slid + 2 * c.wsize;
    q.(taken := taken, look := taken - q.slid - q.next)
  }

  /** A block of the largest size ends, or one that could slide out of the window, or none. */
  function Stepped(c: Conf, p: Place): (q: Place)
    requires OkPlace(c, p) && p.look > 0
    ensures OkPlace(c, q) && p.ends <= q.ends && q.supplied == p.supplied && q.slid + q.next > p.slid + p.next
  {
    var to, most := p.next + p.look, p.start + MaxBlockOf(c);
    if to >= most then p.(next := most, look := to - most, start := most, ends := p.ends + [p.slid + most])
    else if to - p.start >= MaxDist(c) then p.(next := to, look := 0, start := to, ends := p.ends + [p.slid + to])
    else p.(next := to, look := 0)
  }

  function Ready(c: Conf, p: Place): Place
    requires OkPlace(c, p)
  {
    if p.look <= 1 then Filled(c, p) else p
  }

  /** Where it comes to when no more is supplied. */
  function Rest(c: Conf, p: Place): (q: Place)
    requires OkPlace(c, p)
    ensures OkPlace(c, q) && q.look == 0 && q.taken == q.supplied == p.supplied && p.ends <= q.ends
    decreases p.supplied - p.slid - p.next
  {
    var q := Ready(c, p);
    if q.look == 0 then q else Rest(c, Stepped(c, q))
  }

  function FirstPlace(): Place { Place(0, 0, 0, 0, 0, 0, []) }

  /** Where it is after pieces of these sizes have arrived one by one. */
  function Fed(c: Conf, pieces: seq<nat>): (p: Place)
    requires OkPlace(c, FirstPlace())
    ensures OkPlace(c, p) && p.look == 0 && p.taken == p.supplied
  {
    if pieces == [] then FirstPlace()
    else
      var p := Fed(c, pieces[..|pieces| - 1]);
      Rest(c, p.(supplied := p.supplied + pieces[|pieces| - 1]))
  }

  lemma FilledIs(c: Conf, p: Place)
    requires OkPlace(c, p)
    ensures var far, w := MaxDist(c), c.wsize;
            var slid := if p.next >= w + far then p.slid + w else p.slid;
            var q := Filled(c, p);
      && q.slid == slid && q.next == p.slid + p.next - slid && q.start == p.slid + p.start - slid
      && q.taken == (if p.supplied <= slid + 2 * w then p.supplied else slid + 2 * w) && q.ends == p.ends
      && q.look == q.taken - q.slid - q.next && q.supplied == p.supplied
  {
  }

  lemma SteppedIs(c: Conf, p: Place)
    requires OkPlace(c, p) && p.look > 0
    ensures var to, most := p.next + p.look, p.start + MaxBlockOf(c);
      Stepped(c, p) ==
      if to >= most then p.(next := most, look := to - most, start := most, ends := p.ends + [p.slid + most])
      else if to - p.start >= MaxDist(c) then p.(next := to, look := 0, start := to, ends := p.ends + [p.slid + to])
      else p.(next := to, look := 0)
  {
  }

  /** Filling the window does not change where it comes to, ... */
  lemma RestFilled(c: Conf, p: Place)
    requires OkPlace(c, p) && p.look <= 1
    ensures Rest(c, Filled(c, p)) == Rest(c, p) && Ready(c, Filled(c, p)) == Filled(c, p)
  {
    assert Filled(c, Filled(c, p)) == Filled(c, p);
  }

  /** ... nor does a step. */
  lemma RestStepped(c: Conf, p: Place)
    requires OkPlace(c, p) && p.look > 0 && Ready(c, p) == p
    ensures Rest(c, Stepped(c, p)) == Rest(c, p)
  {
  }

  /** When all is dealt with, it stays where it is. */
  lemma RestHere(c: Conf, p: Place)
    requires OkPlace(c, p) && p.look == 0 && p.taken == p.supplied
    ensures Rest(c, p).ends == p.ends && Rest(c, p).supplied == p.supplied
  {
  }
}
