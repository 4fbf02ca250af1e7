/** Inflating does not depend on how the input is supplied and the output room is granted. */
module Schedule {
  import opened HuftSpec
  import opened Stream
  import opened InflateTrees
  import opened InflateSpec
  import opened InflateState
  import opened InflateFits
  import opened InflateBlocks
  import DeflateFormat
  import InflateRight
  import InflateComplete

  /** All input is supplied, all output delivered, and the machine can do nothing more. */
  ghost predicate Finished(x: Inflate)
    reads x, x.br, x.win
  {
    x.br.limit == |x.br.input| && x.win.sink == x.win.out && Stuck(x.e, x.g, x.br.limit)
  }

  ghost predicate SameStream(x: Inflate, y: Inflate)
    reads x, x.br, x.win, y, y.br, y.win
  {
    x.br.input == y.br.input && x.win.base == y.win.base
  }

  /** What an object has produced and delivered is what the machine has at some step. */
  lemma Produced(x: Inflate)
    requires x.Valid()
    ensures |x.e.base| > 0 && x.e.input == x.br.input && x.e.base == x.win.base
    ensures Run(x.e.input, x.e.base, x.g.steps) == Some(x.g.a) && WF(x.g.a)
    ensures x.g.a.out == x.win.out && |x.win.sink| <= |x.win.out| && x.win.sink == x.win.out[..|x.win.sink|]
    ensures BlockRel(x.mode, x.g.a.mode, x.hufts[..], x.e.fixed, x.g.bits, x.g.lit, x.g.dist, x.e.input, x.br.bp)
  {
    hide Run, WF, BlockRel, Env.Ok;
  }

  /** The return code that a mode leads to. */
  function Verdict(m: BlockPart): Ret {
    if m.DONE? then Z_STREAM_END
    else if m.BAD? || (m.CODES? && m.codes.part.BADCODE?) then Z_DATA_ERROR
    else Z_OK
  }

  /** ... and what the abstract mode says. */
  function Answer(m: BlockMode): Ret {
    if m.Done? then Z_STREAM_END
    else if m.Bad? || (m.InCodes? && m.cm.BadCode?) then Z_DATA_ERROR
    else Z_OK
  }

  lemma VerdictIs(m: BlockPart, am: BlockMode, hufts: seq<Huft>, fixed: seq<Huft>, bits: Marks, lit: Marks, dist: Marks,
                  input: seq<byte>, bp: nat)
    requires BlockRel(m, am, hufts, fixed, bits, lit, dist, input, bp)
    ensures Verdict(m) == Answer(am)
  {
    hide TreesRel, BTreeRel, DTreeRel, Points;
  }

  lemma VerdictOf(x: Inflate)
    requires x.Valid()
    ensures Verdict(x.mode) == Answer(x.g.a.mode)
  {
    hide *;
    Produced(x);
    VerdictIs(x.mode, x.g.a.mode, x.hufts[..], x.e.fixed, x.g.bits, x.g.lit, x.g.dist, x.e.input, x.br.bp);
  }

  /** An object that has finished is ahead of every other on the same stream. */
  lemma Ahead(x: Inflate, y: Inflate)
    requires x.Valid() && y.Valid() && SameStream(x, y) && Finished(y)
    ensures x.g.steps <= y.g.steps && x.win.out <= y.win.out
  {
    hide Run, WF, BlockRel, Inflate.Valid, Step;
    Produced(x);
    Produced(y);
    StoppedIsLast(x.e.input, x.e.base, y.g.steps, x.g.steps);
    RunGrows(x.e.input, x.e.base, x.g.steps, y.g.steps);
  }

  /**
   * However the input was supplied and the room granted, what is delivered is at any time a prefix
   * of what a finished run delivers, and two finished runs deliver the same bytes, end in the same
   * state, answer the same and, at the end of the stream, leave the input at the same byte.
   */
  lemma ScheduleIndependent(x: Inflate, y: Inflate)
    requires x.Valid() && y.Valid() && SameStream(x, y) && Finished(y)
    ensures x.win.sink <= y.win.sink
    ensures Finished(x) ==> x.win.sink == y.win.sink && x.g.a == y.g.a && Verdict(x.mode) == Verdict(y.mode)
    ensures Finished(x) && x.mode.DONE? && y.mode.DONE? ==> x.br.pos == y.br.pos
  {
    hide Run, WF, BlockRel, Inflate.Valid, Step, Verdict, Answer, Stuck;
    Produced(x);
    Produced(y);
    Ahead(x, y);
    if Finished(x) {
      Ahead(y, x);
      VerdictOf(x);
      VerdictOf(y);
      x.NoByteTooMany();
      y.NoByteTooMany();
      SamePlace(x);
      SamePlace(y);
    }
  }

  lemma SamePlace(x: Inflate)
    requires x.Valid()
    ensures x.g.a.bp == x.br.bp
  {
    hide *;
    x.Open();
    FitsFacts(x.e, x.mode, x.g, x.Now());
  }

  /**
   * inflate_blocks inverts the format: once a stream of blocks is supplied with at least eight bits after
   * it, and all output is taken, what was delivered is what the blocks stand for, and no byte after them
   * is taken; unless some block is not such as inflate takes, and then it answers with an error.
   */
  lemma Inflates(x: Inflate, bs: seq<DeflateFormat.Block>)
    requires x.Valid() && Finished(x)
    requires DeflateFormat.Blocks(x.br.input, bs, true) && DeflateFormat.Finish(bs) + 8 <= 8 * |x.br.input|
    ensures x.mode.DONE? <==> DeflateFormat.Trimmed(bs)
    ensures Verdict(x.mode) == Z_DATA_ERROR <==> !DeflateFormat.Trimmed(bs)
    ensures DeflateFormat.Trimmed(bs) ==>
      && x.win.sink == DeflateFormat.Content(x.win.base, bs)
      && x.br.bp == DeflateFormat.Finish(bs) <= 8 * x.br.pos < DeflateFormat.Finish(bs) + 8
  {
    hide Run, WF, BlockRel, Inflate.Valid, Step, DeflateFormat.Blocks, DeflateFormat.Trimmed, DeflateFormat.Content,
      DeflateFormat.Finish, Answer, Verdict;
    Produced(x);
    InflateComplete.DecodesBlocks(x.e.input, x.e.base, x.g.steps, bs);
    VerdictOf(x);
    AnswerDone(x.g.a.mode, x.mode);
    x.NoByteTooMany();
    SamePlace(x);
  }

  /**
   * Conversely, where it reports the end of the stream, blocks
   * were there and what was delivered is what they stand for.
   */
  lemma InflatedBlocks(x: Inflate) returns (bs: seq<DeflateFormat.Block>)
    requires x.Valid() && x.mode.DONE?
    ensures DeflateFormat.Blocks(x.br.input, bs, true) && DeflateFormat.Trimmed(bs)
    ensures x.win.sink == DeflateFormat.Content(x.win.base, bs)
    ensures x.br.bp == DeflateFormat.Finish(bs) <= 8 * x.br.pos < DeflateFormat.Finish(bs) + 8
  {
    hide Run, WF, BlockRel, Inflate.Valid, Step, DeflateFormat.Blocks, DeflateFormat.Trimmed, DeflateFormat.Content,
      DeflateFormat.Finish, Answer, Verdict;
    Produced(x);
    VerdictOf(x);
    AnswerDone(x.g.a.mode, x.mode);
    bs := InflateRight.DoneIsDecoded(x.e.input, x.e.base, x.g.steps);
    x.NoByteTooMany();
    x.DoneDelivered();
    SamePlace(x);
  }

  /** It reports an error only if the stream is not one of blocks such as inflate takes. */
  lemma ErrorIsReal(x: Inflate, bs: seq<DeflateFormat.Block>)
    requires x.Valid() && Verdict(x.mode) == Z_DATA_ERROR
    ensures !DeflateFormat.Blocks(x.br.input, bs, true) || !DeflateFormat.Trimmed(bs)
  {
    hide Run, WF, BlockRel, Inflate.Valid, Step, DeflateFormat.Blocks, DeflateFormat.Trimmed, Verdict;
    Produced(x);
    VerdictOf(x);
    if DeflateFormat.Blocks(x.br.input, bs, true) {
      InflateComplete.NeverFails(x.e.input, x.e.base, x.g.steps, bs);
    }
  }

  lemma AnswerDone(am: BlockMode, m: BlockPart)
    requires Verdict(m) == Answer(am)
    ensures am.Done? <==> m.DONE?
    ensures am.Bad? ==> Verdict(m) == Z_DATA_ERROR
    ensures m.DONE? ==> Verdict(m) != Z_DATA_ERROR
  {
  }

  /** Whatever has been delivered to two callers, one has a prefix of what the other has. */
  lemma NeverDisagree(x: Inflate, y: Inflate)
    requires x.Valid() && y.Valid() && SameStream(x, y)
    ensures x.win.sink <= y.win.sink || y.win.sink <= x.win.sink
  {
    hide Run, WF, BlockRel, Inflate.Valid;
    Produced(x);
    Produced(y);
    if x.g.steps <= y.g.steps {
      RunGrows(x.e.input, x.e.base, x.g.steps, y.g.steps);
    } else {
      RunGrows(x.e.input, x.e.base, y.g.steps, x.g.steps);
    }
  }

  /** One call: more input, more room. */
  datatype Call = Call(supply: nat, room: nat)

  function Supplied(calls: seq<Call>): nat {
    if calls == [] then 0 else Supplied(calls[..|calls| - 1]) + calls[|calls| - 1].supply
  }

  function Granted(calls: seq<Call>): nat {
    if calls == [] then 0 else Granted(calls[..|calls| - 1]) + calls[|calls| - 1].room
  }

  /** A whole run of inflate_blocks over any schedule of calls. */
  method Drive(stream: seq<byte>, w: array<byte>, calls: seq<Call>) returns (x: Inflate, r: Ret)
    requires w.Length > 0 && Supplied(calls) <= |stream|
    modifies w
    ensures fresh(x) && x.Valid() && x.br.input == stream && x.win.base == old(w[..])
    ensures x.br.limit == Supplied(calls) && |x.win.sink| + x.win.avail == Granted(calls)
    ensures calls != [] && x.br.limit == |stream| && x.win.avail > 0 ==> Finished(x)
    ensures calls != [] ==> Says(r, x.mode)
  {
    hide *;
    x := new Inflate(stream, w);
    r := Z_OK;
    SupplyNone();
    var i := 0;
    assert calls[..0] == [];
    while i < |calls|
      invariant i <= |calls| && x.Valid() && fresh(x) && fresh(x.br) && fresh(x.win) && fresh(x.hufts)
      invariant x.win.window == w
      invariant x.br.input == stream && x.win.base == old(w[..])
      invariant x.br.limit == Supplied(calls[..i]) && |x.win.sink| + x.win.avail == Granted(calls[..i])
      invariant i > 0 && x.br.limit == |stream| && x.win.avail > 0 ==> Finished(x)
      invariant i > 0 ==> Says(r, x.mode)
    {
      SupplyMore(calls, i);
      OneCall(x, calls[i]);
      SaysNothing();
      r := x.Blocks(Z_BUF_ERROR);
      FinishedIs(x);
      i := i + 1;
    }
    assert calls[..|calls|] == calls;
  }

  lemma SaysNothing()
    ensures Going(Z_BUF_ERROR)
  {
  }

  lemma FinishedIs(x: Inflate)
    ensures x.br.limit == |x.br.input| && x.win.sink == x.win.out && Stuck(x.e, x.g, x.br.limit) ==> Finished(x)
  {
  }

  lemma SupplyNone()
    ensures Supplied([]) == 0 && Granted([]) == 0
  {
  }

  lemma {:induction false} SuppliedGrows(calls: seq<Call>, i: nat)
    requires i <= |calls|
    ensures Supplied(calls[..i]) <= Supplied(calls)
    decreases |calls| - i
  {
    if i < |calls| {
      SuppliedGrows(calls, i + 1);
      assert calls[..i + 1][..i] == calls[..i];
    } else {
      assert calls[..i] == calls;
    }
  }

  lemma SupplyMore(calls: seq<Call>, i: nat)
    requires i < |calls|
    ensures Supplied(calls[..i + 1]) == Supplied(calls[..i]) + calls[i].supply <= Supplied(calls)
    ensures Granted(calls[..i + 1]) == Granted(calls[..i]) + calls[i].room
  {
    assert calls[..i + 1][..i] == calls[..i];
    SuppliedGrows(calls, i + 1);
  }

  method OneCall(x: Inflate, c: Call)
    requires x.Valid() && x.br.limit + c.supply <= |x.br.input|
    modifies x.br`limit, x.win`avail
    ensures x.Valid() && x.br.limit == old(x.br.limit) + c.supply && x.win.avail == old(x.win.avail) + c.room
  {
    hide *;
    x.Open();
    x.DoneDelivered();
    x.br.Supply(c.supply);
    x.win.Grant(c.room);
    x.Close();
  }
}
