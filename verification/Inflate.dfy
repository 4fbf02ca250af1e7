/** inflate_blocks of infblock.c, inflate_codes of infcodes.c and inflate_fast of inffast.c as one resumable object. */
module InflateBlocks {
  import opened Arith
  import opened HuftSpec
  import opened TableBuilder
  import opened CodeLengths
  import opened InflateTrees
  import opened FixedTrees
  import opened Stream
  import opened BitInput
  import opened OutputWindow
  import opened InflateSpec
  import opened InflateState
  import opened InflateFits
  import opened LengthFits
  import opened CodesFits

  /** Modes passed through without consuming a bit get smaller. */
  function Rank(b: BlockPart): nat {
    match b
    case BTREE(_, _, _) => 12
    case DTREE(_, _, _, _, _) => 11
    case CODES(cs) => (match cs.part
      case LENEXT(_, _) => 9
      case DISTEXT(_, _, _) => 9
      case COPY(_, _) => 8
      case LIT(_) => 8
      case START => 7
      case LEN(_, _) => 6
      case DIST(_, _, _) => 6
      case WASH => 5
      case END => 4
      case BADCODE => 3)
    case DRY => 2
    case _ => 1
  }

  class Inflate {
    const br: BitIn
    const win: Window
    const hufts: array<Huft>     // table space of the current block
    const fixed: array<Huft>     // the tables of the fixed trees
    const ftl: nat
    const ftd: nat
    var mode: BlockPart
    var last: bool               // is this block the last block?
    ghost const e: Env
    ghost var g: Shadow          // the abstract state this object stands for

    /** inflate_blocks_new, with the fixed tables built at once rather than on first use. */
    constructor (stream: seq<byte>, w: array<byte>)
      requires w.Length > 0
      ensures Valid() && mode == TYPE && g.a == INITIAL && g.steps == 0
      ensures br.input == stream && win.base == w[..] && win.window == w && win.sink == [] && win.avail == 0
      ensures br.limit == 0
      ensures fresh(br) && fresh(win) && fresh(hufts) && fresh(fixed)
    {
      hide Tree.In, Tree.Ok, FixedLitTree, FixedDistTree;
      br := new BitIn(stream);
      win := new Window(w);
      hufts := new Huft[MANY](_ => Huft(0, 0, 0));
      var bl, bd, mem, tl, td;
      ghost var t1, t2;
      bl, bd, mem, tl, td, t1, t2 := InflateTreesFixed();
      fixed, ftl, ftd := mem, tl, td;
      e := Env(stream, w[..], mem[..], tl, td, Marks(512, t1), Marks(FIXEDH, t2));
      g := Shadow(INITIAL, 0, Marks(0, map[]), Marks(0, map[]), Marks(0, map[]));
      mode, last := TYPE, false;
    }

    /** The state besides the mode, as a value. */
    ghost function Now(): View
      reads this, br, win, hufts
    {
      View(last, br.bp, br.bitk, br.ahead, win.out, hufts[..])
    }

    /** The constants are what they are. */
    ghost predicate Base()
      reads fixed
    {
      && br.input == e.input && win.base == e.base && fixed[..] == e.fixed && ftl == e.ftl && ftd == e.ftd
      && hufts.Length == MANY && hufts != fixed && |e.base| > 0
    }

    ghost predicate Valid()
      reads this, br, win, win.window, hufts, fixed
    {
      Stands(mode, g) && (mode.DONE? ==> win.sink == win.out) && Few(mode, br.bitk)
    }

    /** The object, with its mode replaced by m, stands for x. */
    ghost predicate Stands(m: BlockPart, x: Shadow)
      reads this, br, win, win.window, hufts, fixed
    {
      Base() && br.Valid() && win.Valid() && Fits(e, m, x, Now())
    }

    lemma OpenAt(m: BlockPart, x: Shadow)
      requires Stands(m, x)
      ensures Base() && br.Valid() && win.Valid() && Fits(e, m, x, Now())
      ensures Now() == View(last, br.bp, br.bitk, br.ahead, win.out, hufts[..])
      ensures br.input == e.input && win.base == e.base && ftl == e.ftl && ftd == e.ftd && |e.base| > 0
      ensures hufts.Length == MANY && hufts != fixed && fixed[..] == e.fixed
      ensures br.pos <= br.limit <= |e.input| && br.bitk + 8 * br.ahead <= 32 && br.bp + br.bitk == 8 * br.pos
    {
      hide Fits, Window.Valid, Holds;
    }

    lemma CloseAt(m: BlockPart, x: Shadow)
      requires Base() && br.Valid() && win.Valid()
      requires Fits(e, m, x, View(last, br.bp, br.bitk, br.ahead, win.out, hufts[..]))
      ensures Stands(m, x)
    {
      hide Fits, Window.Valid, BitIn.Valid;
    }

    lemma ValidStands()
      requires Valid()
      ensures Stands(mode, g) && Few(mode, br.bitk)
    {
      hide Stands, Few;
    }

    lemma Open()
      requires Valid()
      ensures Base() && br.Valid() && win.Valid() && Fits(e, mode, g, Now())
      ensures Now() == View(last, br.bp, br.bitk, br.ahead, win.out, hufts[..])
      ensures br.input == e.input && win.base == e.base && ftl == e.ftl && ftd == e.ftd && |e.base| > 0
      ensures hufts.Length == MANY && hufts != fixed
      ensures br.pos <= br.limit <= |e.input| && br.bitk + 8 * br.ahead <= 32 && br.bp + br.bitk == 8 * br.pos
      ensures Few(mode, br.bitk)
    {
      hide Few, Fits, Window.Valid, Holds;
    }

    lemma Close()
      requires Base() && br.Valid() && win.Valid() && (mode.DONE? ==> win.sink == win.out) && Few(mode, br.bitk)
      requires Fits(e, mode, g, View(last, br.bp, br.bitk, br.ahead, win.out, hufts[..]))
      ensures Valid()
    {
      hide Few, Fits, Window.Valid, BitIn.Valid;
    }

    /** Only the bit buffer has changed. */
    lemma Refill(v: View)
      requires Base() && br.Valid() && win.Valid() && !mode.DONE? && !mode.STORED? && (mode.LENS? ==> br.bitk % 8 == 0)
      requires Fits(e, mode, g, v) && Few(mode, br.bitk)
      requires v.last == last && v.bp == br.bp && v.out == win.out && v.hufts == hufts[..]
      ensures Valid()
    {
      hide Few, Fits, Window.Valid, BitIn.Valid;
      FitsBuffer(e, mode, g, v, br.bitk, br.ahead);
    }

    /** ... also while it holds more than Few. */
    lemma RefillAt(v: View)
      requires Base() && br.Valid() && win.Valid() && mode.CODES?
      requires Fits(e, mode, g, v)
      requires v.last == last && v.bp == br.bp && v.out == win.out && v.hufts == hufts[..]
      ensures Stands(mode, g)
    {
      hide Fits, Window.Valid, BitIn.Valid;
      FitsBuffer(e, mode, g, v, br.bitk, br.ahead);
    }

    method DoType(r: Ret) returns (cont: bool, r': Ret)
      requires Valid() && mode.TYPE? && Going(r)
      modifies this`mode, this`last, this`g, br
      ensures Valid() && br.limit == old(br.limit) && g.steps >= old(g.steps)
      ensures cont ==> br.bp > old(br.bp)
      ensures !cont ==> Stuck(e, g, br.limit)
      ensures cont ==> Going(r')
      ensures Says(r', mode)
    {
      hide *;
      Open();
      FewIs(mode, br.bitk);
      ghost var v := Now();
      var t;
      cont, t, r' := br.TakeBits(3, r);
      SaysGo(r, r', mode);
      if !cont {
        TypeStuck(e, g, v, br.limit);
        FewLow(mode, br.bitk);
        Refill(v);
        return;
      }
      if t / 2 == 0 {
        br.DumpToByte();
      }
      ghost var g1 := TypeFits(e, g, v, br.limit, t, View(t % 2 == 1, br.bp, br.bitk, br.ahead, win.out, hufts[..]));
      TypeModeIs(ftl, ftd, t);
      mode, last, g := TypeMode(ftl, ftd, t), t % 2 == 1, g1;
      FewMid(mode, br.bitk);
      Close();
      if t / 2 >= 3 {
        SaysBad(mode);
        return false, Z_DATA_ERROR;
      }
      SaysGo(r', r', mode);
    }

    method DoLens(r: Ret) returns (cont: bool, r': Ret)
      requires Valid() && mode.LENS? && Going(r)
      modifies this`mode, this`g, br
      ensures Valid() && br.limit == old(br.limit) && g.steps >= old(g.steps)
      ensures cont ==> br.bp > old(br.bp)
      ensures !cont ==> Stuck(e, g, br.limit)
      ensures cont ==> Going(r')
      ensures Says(r', mode)
    {
      hide *;
      Open();
      ghost var v := Now();
      LensBuffer(e, g, v);
      var n, m;
      cont, n, m, r' := br.TakeLengths(r);
      SaysGo(r, r', mode);
      if !cont {
        LensStuck(e, g, v, br.limit);
        FewAny(mode, br.bitk);
        Refill(v);
        return;
      }
      ghost var g1 := LensFits(e, g, v, br.limit, View(last, br.bp, br.bitk, br.ahead, win.out, hufts[..]));
      LensModeIs(n, m, last);
      mode, g := LensMode(n, m, last), g1;
      if n + m != 65535 {
        FewAny(mode, br.bitk);
        Close();
        SaysBad(mode);
        return false, Z_DATA_ERROR;
      }
      FewLow(mode, br.bitk);
      Close();
      SaysGo(r', r', mode);
    }

    method DoStored(left: nat, r: Ret) returns (cont: bool, r': Ret)
      requires Valid() && mode == STORED(left) && Going(r)
      modifies this`mode, this`g, br, win, win.window
      ensures Valid() && br.limit == old(br.limit) && g.steps >= old(g.steps)
      ensures cont ==> br.bp > old(br.bp)
      ensures !cont ==> win.avail == 0 || Stuck(e, g, br.limit)
      ensures win.avail + |win.sink| == old(win.avail) + |old(win.sink)|
      ensures cont ==> Going(r')
      ensures Says(r', mode)
    {
      hide *;
      Open();
      ghost var v := Now();
      StoredFacts(e, left, g, v);
      SaysGo(r, r, mode);
      if br.pos == br.limit {
        StoredStuck(e, left, g, v, br.limit);
        return false, r;
      }
      cont, r' := win.NeedOut(r);
      SaysGo(r, r', mode);
      Close();
      if cont {
        PutStored(left);
        SaysGo(r', r', mode);
      }
    }

    /** Copies as much of a stored block as there is input and room for in one piece. */
    method PutStored(left: nat)
      requires Valid() && mode == STORED(left) && br.pos < br.limit && win.write <= win.size && win.WAvail() > 0
      modifies this`mode, this`g, br`pos, br`bp, win.window, win`write, win`out
      ensures Valid() && g.steps >= old(g.steps) && br.bp > old(br.bp)
      ensures !mode.BAD? && !mode.DONE? && !mode.CODES?
    {
      hide *;
      Open();
      ghost var v := Now();
      StoredFacts(e, left, g, v);
      var t := left;
      if t > br.limit - br.pos {
        t := br.limit - br.pos;
      }
      if t > win.WAvail() {
        t := win.WAvail();
      }
      ghost var pos := br.pos;
      var s := br.TakeBytes(t);
      win.PutBytes(s);
      ghost var g1 := StoredFits(e, left, g, v, pos, br.limit, t,
                                 View(last, br.bp, br.bitk, br.ahead, win.out, hufts[..]));
      AfterStoredIs(left, t, last);
      mode, g := AfterStored(left, t, last), g1;
      FewLow(mode, br.bitk);
      Close();
    }

    method DoTable(r: Ret) returns (cont: bool, r': Ret)
      requires Valid() && mode.TABLE? && Going(r)
      modifies this`mode, this`g, br
      ensures Valid() && br.limit == old(br.limit) && g.steps >= old(g.steps)
      ensures cont ==> br.bp > old(br.bp)
      ensures !cont ==> Stuck(e, g, br.limit)
      ensures cont ==> Going(r')
      ensures Says(r', mode)
    {
      hide *;
      Open();
      FewIs(mode, br.bitk);
      ghost var v := Now();
      cont, r' := br.NeedBits(14, r);
      SaysGo(r, r', mode);
      if !cont {
        TableStuck(e, g, v, br.limit);
        FewMid(mode, br.bitk);
        Refill(v);
        return;
      }
      var t := br.Bits(14);
      if t % 32 > 29 || (t / 32) % 32 > 29 {
        ghost var g1 := TableFits(e, g, v, br.limit, t, View(last, br.bp, br.bitk, br.ahead, win.out, hufts[..]));
        mode, g := BAD, g1;
        FewAny(mode, br.bitk);
        Close();
        SaysBad(mode);
        return false, Z_DATA_ERROR;
      }
      br.DumpBits(14);
      ghost var g1 := TableFits(e, g, v, br.limit, t, View(last, br.bp, br.bitk, br.ahead, win.out, hufts[..]));
      mode, g := BTREE(t, 0, NoLengths(258 + t % 32 + (t / 32) % 32)), g1;
      FewMid(mode, br.bitk);
      Close();
      SaysGo(r', r', mode);
    }

    /** One length of the code-length code. */
    method DoBits(table: nat, index: nat, blens: seq<nat>, r: Ret) returns (cont: bool, r': Ret)
      requires Valid() && mode == BTREE(table, index, blens) && index < LenCodes(table) && Going(r)
      modifies this`mode, this`g, br
      ensures Valid() && br.limit == old(br.limit) && g.steps >= old(g.steps)
      ensures cont ==> br.bp > old(br.bp)
      ensures !cont ==> Stuck(e, g, br.limit)
      ensures cont ==> Going(r')
      ensures Says(r', mode)
    {
      hide *;
      Open();
      FewIs(mode, br.bitk);
      ghost var v := Now();
      BTreeRoom(e, table, index, blens, g, v);
      var x;
      cont, x, r' := br.TakeBits(3, r);
      SaysGo(r, r', mode);
      if !cont {
        BTreeStuck(e, table, index, blens, g, v, br.limit);
        FewLow(mode, br.bitk);
        Refill(v);
        return;
      }
      ghost var g1 := BTreeRead(e, table, index, blens, g, v, br.limit,
                                View(last, br.bp, br.bitk, br.ahead, win.out, hufts[..]));
      mode, g := BTREE(table, index + 1, blens[Border(index) := x]), g1;
      FewMid(mode, br.bitk);
      Close();
      SaysGo(r', r', mode);
    }

    /** Builds the decoding table of the code-length code. */
    method DoBitsTree(table: nat, index: nat, was: seq<nat>, r: Ret) returns (cont: bool, r': Ret)
      requires Valid() && mode == BTREE(table, index, was) && index >= LenCodes(table) && Going(r)
      modifies this`mode, this`g, hufts
      ensures Valid() && g.steps >= old(g.steps)
      ensures cont ==> mode.DTREE?
      ensures !cont ==> Stuck(e, g, br.limit)
      ensures cont ==> Going(r')
      ensures Says(r', mode)
    {
      hide *;
      Open();
      FewIs(mode, br.bitk);
      ghost var v := Now();
      BTreeRoom(e, table, index, was, g, v);
      var blens := ZeroRest(was, index);
      BTreeSame(blens, was, index);
      BTreeSmall(e, table, index, was, g, v, blens);
      ghost var hn, tabs;
      var bb, tb;
      r', bb, tb, hn, tabs := InflateTreesBits(blens[..19], hufts);
      BitsBuiltIs(blens[..19], hufts[..], bb, tb, Marks(hn, tabs), r' == Z_OK);
      ghost var g1 := BTreeDone(e, table, index, was, g, v, br.limit, blens, hufts[..], bb, tb, Marks(hn, tabs));
      cont := r' == Z_OK;
      mode, g := if cont then DTREE(table, 0, blens, bb, tb) else BAD, g1;
      FewMid(mode, br.bitk);
      Close();
      if cont {
        r' := r;
        SaysGo(r, r, mode);
      } else {
        SaysBad(mode);
      }
    }

    /** One code length or one repeat. */
    method DoLength(table: nat, index: nat, was: seq<nat>, bb: nat, tb: nat, r: Ret) returns (cont: bool, r': Ret)
      requires Valid() && mode == DTREE(table, index, was, bb, tb) && index < |was| && Going(r)
      modifies this`mode, this`g, br
      ensures Valid() && br.limit == old(br.limit) && g.steps >= old(g.steps)
      ensures cont ==> br.bp > old(br.bp)
      ensures !cont ==> Stuck(e, g, br.limit)
      ensures cont ==> Going(r')
      ensures Says(r', mode)
    {
      hide *;
      Open();
      FewIs(mode, br.bitk);
      ghost var v := Now();
      DTreeRoom(e, table, index, was, bb, tb, g, v);
      cont, r' := br.NeedBits(bb, r);
      SaysGo(r, r', mode);
      if !cont {
        DTreeStuck(e, table, index, was, bb, tb, g, v, br.limit);
        FewMid(mode, br.bitk);
        Refill(v);
        return;
      }
      DTreeEntry(e, table, index, was, bb, tb, g, v);
      var x := br.Bits(bb);
      var h := hufts[tb + x];
      EntryIsLength(h, NextLength(e, g).0, NextLength(e, g).1, bb);
      if h.base < 16 {
        br.DumpBits(h.bits);
        var blens := was[index := h.base];
        FilledOnce(was, index, h.base);
        ghost var g1 := DTreeRead(e, table, index, was, bb, tb, g, v, br.limit, blens,
                                  View(last, br.bp, br.bitk, br.ahead, win.out, hufts[..]));
        mode, g := DTREE(table, index + 1, blens, bb, tb), g1;
        FewMid(mode, br.bitk);
        Close();
        SaysGo(r', r', mode);
      } else {
        FewMid(mode, br.bitk);
        Refill(v);
        cont, r' := DoRepeat(table, index, was, bb, tb, h, r');
      }
    }

    /** A repeat: the entry is found, its bits and the extra bits are to be taken. */
    method DoRepeat(table: nat, index: nat, was: seq<nat>, bb: nat, tb: nat, h: Huft, r: Ret)
      returns (cont: bool, r': Ret)
      requires Valid() && mode == DTREE(table, index, was, bb, tb) && index < |was| && Going(r)
      requires h.base >= 16 && LengthEntry(h, NextLength(e, g).0, NextLength(e, g).1, bb) && br.bp + bb <= 8 * br.limit
      modifies this`mode, this`g, br
      ensures Valid() && br.limit == old(br.limit) && g.steps >= old(g.steps)
      ensures cont ==> br.bp > old(br.bp)
      ensures !cont ==> Stuck(e, g, br.limit)
      ensures cont ==> Going(r')
      ensures Says(r', mode)
    {
      hide *;
      Open();
      FewIs(mode, br.bitk);
      ghost var v := Now();
      DTreeRoom(e, table, index, was, bb, tb, g, v);
      EntryIsLength(h, NextLength(e, g).0, NextLength(e, g).1, bb);
      RepeatRange(h.base);
      cont, r' := br.NeedBits(h.bits + RepeatBits(h.base), r);
      SaysGo(r, r', mode);
      if !cont {
        DTreeStuck(e, table, index, was, bb, tb, g, v, br.limit);
        FewMid(mode, br.bitk);
        Refill(v);
        return;
      }
      var x := br.TakeAfter(h.bits, RepeatBits(h.base));
      var n := RepeatBase(h.base) + x;
      ghost var v' := View(last, br.bp, br.bitk, br.ahead, win.out, hufts[..]);
      RepeatCountIs(e, g, v, n, x);
      if index + n > |was| || (h.base == 16 && index < 1) {
        ghost var g1 := DTreeRepeat(e, table, index, was, bb, tb, g, v, br.limit, was, v');
        mode, g := BAD, g1;
        FewMid(mode, br.bitk);
        Close();
        SaysBad(mode);
        return false, Z_DATA_ERROR;
      }
      var blens := FillRun(was, index, n, if h.base == 16 then was[index - 1] else 0);
      ghost var g1 := DTreeRepeat(e, table, index, was, bb, tb, g, v, br.limit, blens, v');
      mode, g := DTREE(table, index + n, blens, bb, tb), g1;
      FewMid(mode, br.bitk);
      Close();
      SaysGo(r', r', mode);
    }

    /** Builds the trees of a dynamic block. */
    method DoTrees(table: nat, blens: seq<nat>, bb: nat, tb: nat, r: Ret) returns (cont: bool, r': Ret)
      requires Valid() && mode == DTREE(table, |blens|, blens, bb, tb) && Going(r)
      modifies this`mode, this`g, hufts
      ensures Valid() && g.steps >= old(g.steps)
      ensures cont ==> mode.CODES?
      ensures !cont ==> Stuck(e, g, br.limit)
      ensures cont ==> Going(r')
      ensures Says(r', mode)
    {
      hide *;
      Open();
      FewIs(mode, br.bitk);
      ghost var v := Now();
      DTreeRoom(e, table, |blens|, blens, bb, tb, g, v);
      DynSizes(table, blens);
      var ll, dl := LitLens(table, blens), DistLens(table, blens);
      ghost var hn, hn', tabs, tabs';
      var bl, bd, tl, td;
      r', bl, bd, tl, td, hn, hn', tabs, tabs' := InflateTreesDynamic(ll, dl, hufts);
      var cs := CodesState(START, false, bl, bd, tl, if td.Some? then td.value else 0);
      DynBuiltIs(ll, dl, hufts[..], cs, td, Marks(hn, tabs), Marks(hn', tabs'), r' == Z_OK);
      ghost var g1 := DTreeDone(e, table, blens, bb, tb, g, v, br.limit, hufts[..], cs, Marks(hn, tabs),
                                Marks(hn', tabs'));
      cont := r' == Z_OK;
      mode, g := if cont then CODES(cs) else BAD, g1;
      FewMid(mode, br.bitk);
      Close();
      if cont {
        r' := r;
        SaysGo(r, r, mode);
      } else {
        SaysBad(mode);
      }
    }

    // ---- inflate_codes ----

    /** The entry at index a of the tables in use. */
    method Entry(cs: CodesState, a: nat) returns (h: Huft)
      requires Base() && a < |Mem(cs, e.fixed, hufts[..])|
      ensures h == Mem(cs, e.fixed, hufts[..])[a]
    {
      h := if cs.fixed then fixed[a] else hufts[a];
    }

    /** One lookup of a literal/length code: the bits are there, those of the entry are dropped. */
    method LookLen(cs: CodesState, tree: nat, need: nat, ghost x: Shadow) returns (h: Huft, a: nat, ghost x': Shadow)
      requires cs.part == LEN(tree, need) && need <= br.bitk && Stands(CODES(cs), x)
      modifies br`bitb, br`bitk, br`bp
      ensures Stands(CODES(cs.(part := LenPart(h, a))), x') && x'.steps > x.steps
      ensures 1 <= h.bits <= need && br.bp == old(br.bp) + h.bits && br.bitk == old(br.bitk) - h.bits
      ensures LenPart(h, a) == BADCODE ==> Stuck(e, x', br.limit)
      ensures LenPart(h, a).LEN? ==> Consumed(x') == Consumed(x) + h.bits
    {
      hide *;
      OpenAt(CODES(cs), x);
      ghost var v := Now();
      LenEntry(e, cs, tree, need, x, v);
      a := br.Bits(need);
      a := tree + a;
      h := Entry(cs, a);
      EntryRange(h, need);
      br.DumpBits(h.bits);
      x' := LenFits(e, cs, tree, need, x, v, br.limit, a, h, View(last, br.bp, br.bitk, br.ahead, win.out, hufts[..]));
      CloseAt(CODES(cs.(part := LenPart(h, a))), x');
    }

    /** One lookup of a distance code. */
    method LookDist(cs: CodesState, len: nat, tree: nat, need: nat, ghost x: Shadow)
      returns (h: Huft, a: nat, ghost x': Shadow)
      requires cs.part == DIST(len, tree, need) && need <= br.bitk && Stands(CODES(cs), x)
      modifies br`bitb, br`bitk, br`bp
      ensures Stands(CODES(cs.(part := DistPart(h, a, len))), x') && x'.steps > x.steps
      ensures 1 <= h.bits <= need && br.bp == old(br.bp) + h.bits && br.bitk == old(br.bitk) - h.bits
      ensures DistPart(h, a, len) == BADCODE ==> Stuck(e, x', br.limit)
      ensures DistPart(h, a, len).DIST? ==> Consumed(x') == Consumed(x) + h.bits
    {
      hide *;
      OpenAt(CODES(cs), x);
      ghost var v := Now();
      DistEntry(e, cs, len, tree, need, x, v);
      a := br.Bits(need);
      a := tree + a;
      h := Entry(cs, a);
      EntryRange(h, need);
      br.DumpBits(h.bits);
      x' := DistFits(e, cs, len, tree, need, x, v, br.limit, a, h,
                     View(last, br.bp, br.bitk, br.ahead, win.out, hufts[..]));
      CloseAt(CODES(cs.(part := DistPart(h, a, len))), x');
    }

    /** Sets the mode to a state of the codes that the object stands for. */
    method SetCodes(cs: CodesState, ghost x: Shadow)
      requires Stands(CODES(cs), x) && Few(CODES(cs), br.bitk)
      modifies this`mode, this`g
      ensures Valid() && mode == CODES(cs) && g == x
    {
      hide *;
      OpenAt(CODES(cs), x);
      mode, g := CODES(cs), x;
      Close();
    }

    method DoLen(cs: CodesState, tree: nat, need: nat, r: Ret) returns (cont: bool, r': Ret)
      requires Valid() && mode == CODES(cs) && cs.part == LEN(tree, need) && Fine(r, cs.part)
      modifies this`mode, this`g, br
      ensures Valid() && mode.CODES? && br.limit == old(br.limit) && g.steps >= old(g.steps)
      ensures cont ==> br.bp > old(br.bp)
      ensures cont ==> !mode.codes.part.BADCODE?
      ensures br.bp >= old(br.bp)
      ensures !cont ==> Stuck(e, g, br.limit) && !mode.codes.part.WASH?
      ensures Fine(r', mode.codes.part)
    {
      hide *;
      Open();
      FewIs(mode, br.bitk);
      ghost var v := Now();
      LenEntry(e, cs, tree, need, g, v);
      cont, r' := br.NeedBits(need, r);
      if !cont {
        FewMid(mode, br.bitk);
        Refill(v);
        LenStuck(e, cs, tree, need, g, v, br.limit);
        FineGo(r, r', cs.part, cs.part);
        return;
      }
      RefillAt(v);
      ghost var x;
      var h, a;
      h, a, x := LookLen(cs, tree, need, g);
      NotEnd(h, a, 0);
      FewMid(CODES(cs.(part := LenPart(h, a))), br.bitk);
      SetCodes(cs.(part := LenPart(h, a)), x);
      if LenPart(h, a).BADCODE? {
        FineBad(LenPart(h, a));
        return false, Z_DATA_ERROR;
      }
      FineGo(r, r', cs.part, LenPart(h, a));
    }

    method DoDist(cs: CodesState, len: nat, tree: nat, need: nat, r: Ret) returns (cont: bool, r': Ret)
      requires Valid() && mode == CODES(cs) && cs.part == DIST(len, tree, need) && Fine(r, cs.part)
      modifies this`mode, this`g, br
      ensures Valid() && mode.CODES? && br.limit == old(br.limit) && g.steps >= old(g.steps)
      ensures cont ==> br.bp > old(br.bp)
      ensures cont ==> !mode.codes.part.BADCODE?
      ensures br.bp >= old(br.bp)
      ensures !cont ==> Stuck(e, g, br.limit) && !mode.codes.part.WASH?
      ensures Fine(r', mode.codes.part)
    {
      hide *;
      Open();
      FewIs(mode, br.bitk);
      ghost var v := Now();
      DistEntry(e, cs, len, tree, need, g, v);
      cont, r' := br.NeedBits(need, r);
      if !cont {
        FewMid(mode, br.bitk);
        Refill(v);
        DistStuck(e, cs, len, tree, need, g, v, br.limit);
        FineGo(r, r', cs.part, cs.part);
        return;
      }
      RefillAt(v);
      ghost var x;
      var h, a;
      h, a, x := LookDist(cs, len, tree, need, g);
      NotEnd(h, a, len);
      FewMid(CODES(cs.(part := DistPart(h, a, len))), br.bitk);
      SetCodes(cs.(part := DistPart(h, a, len)), x);
      if DistPart(h, a, len).BADCODE? {
        FineBad(DistPart(h, a, len));
        return false, Z_DATA_ERROR;
      }
      FineGo(r, r', cs.part, DistPart(h, a, len));
    }

    /** LENEXT and DISTEXT. */
    method DoExtra(cs: CodesState, get: nat, r: Ret) returns (cont: bool, r': Ret)
      requires Valid() && mode == CODES(cs) && (cs.part.LENEXT? || cs.part.DISTEXT?) && get == ExtraBits(cs.part)
      requires Fine(r, cs.part)
      modifies this`mode, this`g, br
      ensures Valid() && mode.CODES? && br.limit == old(br.limit) && g.steps >= old(g.steps)
      ensures cont ==> br.bp >= old(br.bp) && if cs.part.LENEXT? then mode.codes.part.DIST? else mode.codes.part.COPY?
      ensures br.bp >= old(br.bp)
      ensures !cont ==> Stuck(e, g, br.limit) && !mode.codes.part.WASH?
      ensures Fine(r', mode.codes.part)
    {
      hide *;
      Open();
      FewIs(mode, br.bitk);
      ghost var v := Now();
      ExtraBound(e, cs, g, v);
      var x;
      cont, x, r' := br.TakeBits(get, r);
      if !cont {
        ExtraStuck(e, cs, g, v, br.limit);
        FewMid(mode, br.bitk);
        Refill(v);
        FineGo(r, r', cs.part, cs.part);
        return;
      }
      ghost var g1 := ExtraFits(e, cs, g, v, br.limit, View(last, br.bp, br.bitk, br.ahead, win.out, hufts[..]));
      ExtraPartIs(cs, x);
      FineGo(r, r', cs.part, ExtraPart(cs, x));
      CloseAt(CODES(cs.(part := ExtraPart(cs, x))), g1);
      FewMid(CODES(cs.(part := ExtraPart(cs, x))), br.bitk);
      SetCodes(cs.(part := ExtraPart(cs, x)), g1);
    }

    /** The COPY loop. */
    method DoCopy(cs: CodesState, len: nat, dist: nat, r: Ret) returns (cont: bool, r': Ret)
      requires Valid() && mode == CODES(cs) && cs.part == COPY(len, dist) && Fine(r, cs.part)
      modifies this`mode, this`g, win, win.window
      ensures Valid() && mode.CODES? && g.steps >= old(g.steps)
      ensures cont ==> mode.codes.part.START?
      ensures !cont ==> win.avail == 0 && !mode.codes.part.WASH?
      ensures win.avail + |win.sink| == old(win.avail) + |old(win.sink)|
      ensures Fine(r', mode.codes.part)
    {
      hide *;
      Open();
      FewIs(mode, br.bitk);
      ghost var v := Now();
      CopyBound(e, cs, len, dist, g, v);
      var left;
      cont, left, r' := win.CopyMatch(dist, len, r);
      ghost var g1 := CopyFits(e, cs, len, dist, g, v, br.limit, len - left);
      var cs' := cs.(part := COPY(left, dist));
      CloseAt(CODES(cs'), g1);
      FineGo(r, r', cs.part, cs'.part);
      if !cont {
        FewMid(CODES(cs'), br.bitk);
        SetCodes(cs', g1);
        return;
      }
      OpenAt(CODES(cs'), g1);
      g1 := CopyDone(e, cs', dist, g1, Now(), br.limit);
      CloseAt(CODES(cs'.(part := START)), g1);
      FewMid(CODES(cs'.(part := START)), br.bitk);
      SetCodes(cs'.(part := START), g1);
      FineGo(r, r', cs.part, START);
    }

    method DoLit(cs: CodesState, c: byte, r: Ret) returns (cont: bool, r': Ret)
      requires Valid() && mode == CODES(cs) && cs.part == LIT(c) && Fine(r, cs.part)
      modifies this`mode, this`g, win, win.window
      ensures Valid() && mode.CODES? && g.steps >= old(g.steps)
      ensures cont ==> mode.codes.part.START?
      ensures !cont ==> win.avail == 0 && !mode.codes.part.WASH?
      ensures win.avail + |win.sink| == old(win.avail) + |old(win.sink)|
      ensures Fine(r', mode.codes.part)
    {
      hide *;
      Open();
      FewIs(mode, br.bitk);
      ghost var v := Now();
      cont, r' := win.NeedOut(r);
      FineGo(r, r', cs.part, cs.part);
      if !cont {
        Close();
        return;
      }
      win.OutByte(c);
      ghost var g1 := LitFits(e, cs, c, g, v, br.limit);
      CloseAt(CODES(cs.(part := START)), g1);
      FewMid(CODES(cs.(part := START)), br.bitk);
      SetCodes(cs.(part := START), g1);
      FineGo(r, r', cs.part, START);
    }

    /** WASH: gives back a byte that is not needed and delivers the output. */
    method DoWash(cs: CodesState, r: Ret) returns (cont: bool, r': Ret)
      requires Valid() && mode == CODES(cs) && cs.part == WASH && Fine(r, cs.part)
      modifies this`mode, this`g, br, win, win.window
      ensures Valid() && mode.CODES? && br.limit == old(br.limit) && br.bp == old(br.bp) && g.steps >= old(g.steps)
      ensures mode.codes.part == if cont then END else WASH
      ensures !cont ==> win.avail == 0
      ensures br.bitk < 8
      ensures win.avail + |win.sink| == old(win.avail) + |old(win.sink)|
      ensures Fine(r', mode.codes.part)
    {
      hide *;
      Open();
      FewIs(mode, br.bitk);
      ghost var v := Now();
      if br.bitk > 7 {
        br.GiveBack(1);
      }
      r' := win.Flush(r);
      FineWash(r, r');
      CodesBuffer(cs, br.bitk, br.ahead);
      FitsBuffer(e, mode, g, v, br.bitk, br.ahead);
      FewLow(mode, br.bitk);
      Close();
      cont := win.read == win.write;
      if cont {
        Open();
        ghost var g1 := WashFits(e, cs, g, Now(), br.limit);
        CloseAt(CODES(cs.(part := END)), g1);
        FewLow(CODES(cs.(part := END)), br.bitk);
        SetCodes(cs.(part := END), g1);
      }
    }

    // ---- inflate_fast ----

    /** Loads the bit buffer without looking at how much input is left. */
    method Grab(cs: CodesState, j: nat, ghost x: Shadow)
      requires Stands(CODES(cs), x) && j <= 25 && br.bp + j <= 8 * br.limit
      modifies br`bitb, br`bitk, br`pos, br`ahead
      ensures Stands(CODES(cs), x) && br.bp == old(br.bp) && br.bitk >= j && br.pos >= old(br.pos)
    {
      hide *;
      OpenAt(CODES(cs), x);
      ghost var v := Now();
      br.GrabBits(j);
      CodesBuffer(cs, br.bitk, br.ahead);
      FitsBuffer(e, CODES(cs), x, v, br.bitk, br.ahead);
      CloseAt(CODES(cs), x);
    }

    /** Looks up a whole literal/length code in the bits that are there. */
    method FastLen(cs: CodesState, ghost x: Shadow) returns (h: Huft, ghost i: nat, ghost x': Shadow)
      requires cs.part == START && br.bitk >= 15 && Stands(CODES(cs), x)
      modifies br`bitb, br`bitk, br`bp
      ensures !LenPart(h, i).LEN? && Stands(CODES(cs.(part := LenPart(h, i))), x') && x'.steps > x.steps
      ensures old(br.bp) < br.bp <= old(br.bp) + 15 && br.bp + br.bitk == old(br.bp + br.bitk)
      ensures LenPart(h, i).BADCODE? ==> Stuck(e, x', br.limit)
    {
      hide *;
      OpenAt(CODES(cs), x);
      x' := StartFits(e, cs, x, Now(), br.limit);
      StartPartIs(cs);
      var tree: nat, need: nat, a: nat, more := cs.ltree, cs.lbits, 0, true;
      CloseAt(CODES(cs.(part := LEN(tree, need))), x');
      h := Huft(0, 0, 0);
      while more
        invariant more ==> Stands(CODES(cs.(part := LEN(tree, need))), x') && br.bp == old(br.bp) + Consumed(x')
        invariant !more ==> Stands(CODES(cs.(part := LenPart(h, a))), x') && !LenPart(h, a).LEN?
        invariant !more ==> old(br.bp) < br.bp <= old(br.bp) + 15
        invariant !more && LenPart(h, a).BADCODE? ==> Stuck(e, x', br.limit)
        invariant br.bp + br.bitk == old(br.bp + br.bitk) && x'.steps > x.steps && br.bp >= old(br.bp)
        decreases old(br.bp) + 15 - br.bp, more
      {
        var c := cs.(part := LEN(tree, need));
        OpenAt(CODES(c), x');
        LenEntry(e, c, tree, need, x', Now());
        h, a, x' := LookLen(c, tree, need, x');
        assert c.(part := LenPart(h, a)) == cs.(part := LenPart(h, a));
        LenPartIs(h, a);
        more := h.exop != 0 && !IsExtra(h.exop) && !IsFinal(h.exop);
        tree, need := a + h.base, h.exop;
      }
      i := a;
    }

    /** Looks up a whole distance code in the bits that are there. */
    method FastDist(cs: CodesState, len: nat, ghost x: Shadow) returns (h: Huft, ghost i: nat, ghost x': Shadow)
      requires cs.part == DIST(len, cs.dtree, cs.dbits) && br.bitk >= 15 && Stands(CODES(cs), x) && Consumed(x) == 0
      modifies br`bitb, br`bitk, br`bp
      ensures !DistPart(h, i, len).DIST? && Stands(CODES(cs.(part := DistPart(h, i, len))), x') && x'.steps > x.steps
      ensures old(br.bp) < br.bp <= old(br.bp) + 15 && br.bp + br.bitk == old(br.bp + br.bitk)
      ensures DistPart(h, i, len).BADCODE? ==> Stuck(e, x', br.limit)
    {
      hide *;
      var tree: nat, need: nat, a: nat, more := cs.dtree, cs.dbits, 0, true;
      h := Huft(0, 0, 0);
      x' := x;
      assert cs.(part := DIST(len, tree, need)) == cs;
      while more
        invariant more ==> Stands(CODES(cs.(part := DIST(len, tree, need))), x') && br.bp == old(br.bp) + Consumed(x')
        invariant !more ==>
          Stands(CODES(cs.(part := DistPart(h, a, len))), x') && !DistPart(h, a, len).DIST? && x'.steps > x.steps
        invariant !more ==> old(br.bp) < br.bp <= old(br.bp) + 15
        invariant !more && DistPart(h, a, len).BADCODE? ==> Stuck(e, x', br.limit)
        invariant br.bp + br.bitk == old(br.bp + br.bitk) && x'.steps >= x.steps && br.bp >= old(br.bp)
        decreases old(br.bp) + 15 - br.bp, more
      {
        var c := cs.(part := DIST(len, tree, need));
        OpenAt(CODES(c), x');
        DistEntry(e, c, len, tree, need, x', Now());
        h, a, x' := LookDist(c, len, tree, need, x');
        assert c.(part := DistPart(h, a, len)) == cs.(part := DistPart(h, a, len));
        DistPartIs(h, a, len);
        more := !IsExtra(h.exop) && !IsFinal(h.exop);
        tree, need := a + h.base, h.exop;
      }
      i := a;
    }

    /** The extra bits, which are there. */
    method FastExtra(cs: CodesState, get: nat, ghost x: Shadow) returns (n: nat, ghost x': Shadow)
      requires (cs.part.LENEXT? || cs.part.DISTEXT?) && get == ExtraBits(cs.part) <= br.bitk && Stands(CODES(cs), x)
      modifies br`bitb, br`bitk, br`bp
      ensures Stands(CODES(cs.(part := ExtraPart(cs, n))), x') && x'.steps > x.steps
      ensures br.bp == old(br.bp) + get && br.bitk == old(br.bitk) - get
      ensures cs.part.LENEXT? ==> Consumed(x') == 0
    {
      hide *;
      OpenAt(CODES(cs), x);
      ghost var v := Now();
      n := br.TakeAfter(0, get);
      x' := ExtraFits(e, cs, x, v, br.limit, View(last, br.bp, br.bitk, br.ahead, win.out, hufts[..]));
      CloseAt(CODES(cs.(part := ExtraPart(cs, n))), x');
    }

    /** The copy of a whole match. */
    method FastMatch(cs: CodesState, len: nat, dist: nat, ghost x: Shadow) returns (ghost x': Shadow)
      requires cs.part == COPY(len, dist) && win.write <= win.size && 3 <= len <= win.WAvail() && Stands(CODES(cs), x)
      modifies win.window, win`write, win`out
      ensures Stands(CODES(cs.(part := START)), x') && x'.steps > x.steps
    {
      hide *;
      OpenAt(CODES(cs), x);
      CopyBound(e, cs, len, dist, x, Now());
      x' := CopyFits(e, cs, len, dist, x, Now(), br.limit, len);
      win.FastCopy(dist, len);
      var c := cs.(part := COPY(0, dist));
      CloseAt(CODES(c), x');
      OpenAt(CODES(c), x');
      x' := CopyDone(e, c, dist, x', Now(), br.limit);
      assert c.(part := START) == cs.(part := START);
      CloseAt(CODES(cs.(part := START)), x');
    }

    /** A length is found: the rest of the match. */
    method FastPair(cs: CodesState, len: nat, get: nat, ghost x: Shadow) returns (q: Ret, ghost x': Shadow)
      requires cs.part == LENEXT(len, get) && get <= 5 <= br.bitk && Stands(CODES(cs), x)
      requires br.bp + 33 <= 8 * br.limit && win.write <= win.size && win.WAvail() >= 258
      modifies br`bitb, br`bitk, br`bp, br`pos, br`ahead, win.window, win`write, win`out
      ensures q == Z_OK || q == Z_DATA_ERROR
      ensures Stands(CODES(cs.(part := FastEnd(q))), x') && x'.steps > x.steps
      ensures br.bp > old(br.bp) && br.pos >= old(br.pos)
      ensures q == Z_DATA_ERROR ==> Stuck(e, x', br.limit)
    {
      hide *;
      FastEndIs();
      var n;
      ExtraBitsIs(cs);
      n, x' := FastExtra(cs, get, x);
      ExtraPartIs(cs, n);
      var c := cs.(part := DIST(len + n, cs.dtree, cs.dbits));
      Grab(c, 15, x');
      var h;
      ghost var i;
      h, i, x' := FastDist(c, len + n, x');
      DistPartIs(h, i, len + n);
      assert c.(part := DistPart(h, i, len + n)) == cs.(part := DistPart(h, i, len + n));
      if !IsExtra(h.exop) {
        return Z_DATA_ERROR, x';
      }
      var d := cs.(part := DISTEXT(len + n, h.base, h.exop % 16));
      ExtraBitsIs(d);
      OpenAt(CODES(d), x');
      ExtraBound(e, d, x', Now());
      DistLenBound(e, d, x', Now());
      Grab(d, h.exop % 16, x');
      var m;
      m, x' := FastExtra(d, h.exop % 16, x');
      ExtraPartIs(d, m);
      var f := cs.(part := COPY(len + n, h.base + m));
      x' := FastMatch(f, len + n, h.base + m, x');
      assert f.(part := START) == cs.(part := START);
      q := Z_OK;
    }

    /** One round of the loop: a literal or a match, or the end of the block, or an error. */
    method FastOne(cs: CodesState, ghost x: Shadow) returns (q: Ret, ghost x': Shadow)
      requires cs.part == START && Stands(CODES(cs), x)
      requires br.bp + 80 <= 8 * br.limit && win.write <= win.size && win.WAvail() >= 258
      modifies br`bitb, br`bitk, br`bp, br`pos, br`ahead, win.window, win`write, win`out
      ensures q == Z_OK || q == Z_DATA_ERROR || q == Z_STREAM_END
      ensures Stands(CODES(cs.(part := FastEnd(q))), x') && x'.steps > x.steps
      ensures br.bp > old(br.bp) && br.pos >= old(br.pos)
      ensures q == Z_DATA_ERROR ==> Stuck(e, x', br.limit)
    {
      hide *;
      FastEndIs();
      Grab(cs, 20, x);
      var h;
      ghost var i;
      h, i, x' := FastLen(cs, x);
      LenPartIs(h, i);
      var c := cs.(part := LenPart(h, 0));
      if h.exop == 0 {
        c := cs.(part := LIT(h.base % 256));
        OpenAt(CODES(c), x');
        ghost var v := Now();
        win.OutByte(h.base % 256);
        x' := LitFits(e, c, h.base % 256, x', v, br.limit);
        assert c.(part := START) == cs.(part := START);
        CloseAt(CODES(cs.(part := START)), x');
        q := Z_OK;
      } else if IsExtra(h.exop) {
        c := cs.(part := LENEXT(h.base, h.exop % 16));
        OpenAt(CODES(c), x');
        ExtraBound(e, c, x', Now());
        ExtraBitsIs(c);
        q, x' := FastPair(c, h.base, h.exop % 16, x');
        assert c.(part := FastEnd(q)) == cs.(part := FastEnd(q));
      } else if IsEnd(h.exop) {
        q := Z_STREAM_END;
      } else {
        q := Z_DATA_ERROR;
      }
    }

    /** inflate_fast: called with room for the longest match and ten bytes of input. */
    method InflateFast(cs: CodesState, ghost x: Shadow) returns (q: Ret, ghost x': Shadow)
      requires cs.part == START && Stands(CODES(cs), x)
      requires br.bitk < 16 && br.pos + 10 <= br.limit && win.write <= win.size && win.WAvail() >= 258
      modifies br`bitb, br`bitk, br`bp, br`pos, br`ahead, win.window, win`write, win`out
      ensures q == Z_OK || q == Z_DATA_ERROR || q == Z_STREAM_END
      ensures Stands(CODES(cs.(part := FastEnd(q))), x') && x'.steps > x.steps
      ensures br.bp > old(br.bp) && br.bitk < 16
      ensures q == Z_DATA_ERROR ==> Stuck(e, x', br.limit)
    {
      hide *;
      FastEndIs();
      OpenAt(CODES(cs), x);
      q, x' := Z_OK, x;
      var more, pos := true, br.pos;
      while more
        invariant q == Z_OK || q == Z_DATA_ERROR || q == Z_STREAM_END
        invariant Stands(CODES(cs.(part := FastEnd(q))), x') && x'.steps >= x.steps && br.bp >= old(br.bp)
        invariant more ==> q == Z_OK && br.pos + 10 <= br.limit && win.write <= win.size && win.WAvail() >= 258
        invariant !more ==> x'.steps > x.steps && br.bp > old(br.bp)
        invariant q == Z_DATA_ERROR ==> Stuck(e, x', br.limit)
        invariant br.pos >= old(br.pos)
        decreases 8 * br.limit - br.bp, more
      {
        assert cs.(part := START) == cs;
        OpenAt(CODES(cs), x');
        q, x' := FastOne(cs, x');
        OpenAt(CODES(cs.(part := FastEnd(q))), x');
        WriteInside();
        more := q == Z_OK && win.WAvail() >= 258 && br.limit - br.pos >= 10;
      }
      var c := cs.(part := FastEnd(q));
      OpenAt(CODES(c), x');
      ghost var v := Now();
      br.Ungrab(br.pos - pos);
      br.Bounds();
      CodesBuffer(c, br.bitk, br.ahead);
      FitsBuffer(e, CODES(c), x', v, br.bitk, br.ahead);
      CloseAt(CODES(c), x');
    }

    lemma WriteInside()
      requires win.Valid()
      ensures win.write <= win.size
    {
    }

    /** START: the fast loop when there is input and room enough, then LEN. */
    method DoStart(cs: CodesState, r: Ret) returns (cont: bool, r': Ret)
      requires Valid() && mode == CODES(cs) && cs.part == START && Fine(r, cs.part)
      modifies this`mode, this`g, br`bitb, br`bitk, br`bp, br`pos, br`ahead, win.window, win`write, win`out
      ensures Valid() && mode.CODES? && g.steps >= old(g.steps)
      ensures cont ==> br.bp > old(br.bp) || (br.bp == old(br.bp) && mode.codes.part.LEN?)
      ensures cont ==> !mode.codes.part.BADCODE?
      ensures br.bp >= old(br.bp)
      ensures !cont ==> Stuck(e, g, br.limit) && !mode.codes.part.WASH?
      ensures Fine(r', mode.codes.part)
    {
      hide *;
      r', cont := r, true;
      ValidStands();
      ghost var x := g;
      OpenAt(CODES(cs), x);
      WriteInside();
      FewIs(mode, br.bitk);
      if win.WAvail() >= 258 && br.limit - br.pos >= 10 {
        r', x := InflateFast(cs, x);
        FastEndIs();
        FineFast(r');
        if r' != Z_OK {
          FewMid(CODES(cs.(part := FastEnd(r'))), br.bitk);
          SetCodes(cs.(part := FastEnd(r')), x);
          return r' == Z_STREAM_END, r';
        }
        assert cs.(part := START) == cs;
        OpenAt(CODES(cs), x);
      }
      StartPartIs(cs);
      x := StartFits(e, cs, x, Now(), br.limit);
      CloseAt(CODES(cs.(part := LEN(cs.ltree, cs.lbits))), x);
      FewMid(CODES(cs.(part := LEN(cs.ltree, cs.lbits))), br.bitk);
      SetCodes(cs.(part := LEN(cs.ltree, cs.lbits)), x);
      FineStart(r, r', cs.ltree, cs.lbits);
    }

    /** One round of the loop of inflate_codes, short of END and BADCODE. */
    method DoCodes(r: Ret) returns (cont: bool, r': Ret)
      requires Valid() && mode.CODES? && !mode.codes.part.END? && !mode.codes.part.BADCODE? && Fine(r, mode.codes.part)
      modifies this`mode, this`g, br, win, win.window
      ensures Valid() && mode.CODES? && br.limit == old(br.limit) && g.steps >= old(g.steps)
      ensures cont ==> br.bp > old(br.bp) || (br.bp == old(br.bp) && Rank(mode) < old(Rank(mode)))
      ensures cont ==> !mode.codes.part.BADCODE?
      ensures br.bp >= old(br.bp)
      ensures !cont ==> win.avail == 0 || Stuck(e, g, br.limit)
      ensures !cont && mode.codes.part.WASH? ==> br.bitk < 8
      ensures win.avail + |win.sink| == old(win.avail) + |old(win.sink)|
      ensures Fine(r', mode.codes.part)
    {
      hide *;
      RankIs(mode);
      var cs := mode.codes;
      match cs.part
      case START =>
        cont, r' := DoStart(cs, r);
        RankIs(mode);
      case LEN(tree, need) =>
        cont, r' := DoLen(cs, tree, need, r);
      case LENEXT(len, get) =>
        ExtraBitsIs(cs);
        cont, r' := DoExtra(cs, get, r);
        RankIs(mode);
      case DIST(len, tree, need) =>
        cont, r' := DoDist(cs, len, tree, need, r);
      case DISTEXT(len, dist, get) =>
        ExtraBitsIs(cs);
        cont, r' := DoExtra(cs, get, r);
        RankIs(mode);
      case COPY(len, dist) =>
        cont, r' := DoCopy(cs, len, dist, r);
        RankIs(mode);
      case LIT(c) =>
        cont, r' := DoLit(cs, c, r);
        RankIs(mode);
      case WASH =>
        cont, r' := DoWash(cs, r);
        RankIs(mode);
    }

    /** Delivers what there is room for. */
    method FlushAll(r: Ret) returns (r': Ret)
      requires Valid()
      modifies win
      ensures Valid() && win.out == old(win.out)
      ensures win.avail == 0 || (win.sink == win.out && win.read == win.write)
      ensures win.avail + |win.sink| == old(win.avail) + |old(win.sink)| && win.avail <= old(win.avail)
      ensures r' == r || (r == Z_BUF_ERROR && r' == Z_OK)
    {
      hide *;
      Open();
      DoneDelivered();
      r' := win.Flush(r);
      Close();
    }

    lemma DoneDelivered()
      requires Valid()
      ensures mode.DONE? ==> win.sink == win.out
    {
      hide Stands;
    }

    method InflateCodes(r: Ret) returns (r': Ret)
      requires Valid() && mode.CODES? && Going(r)
      modifies this`mode, this`g, br, win, win.window
      ensures Valid() && mode.CODES? && br.limit == old(br.limit) && g.steps >= old(g.steps) && br.bp >= old(br.bp)
      ensures r' != Z_STREAM_END ==> win.avail == 0 || Stuck(e, g, br.limit)
      ensures r' == Z_STREAM_END ==> (mode.codes.part.WASH? || mode.codes.part.END?) && br.bitk < 8
      ensures win.avail + |win.sink| == old(win.avail) + |old(win.sink)|
      ensures Fine(r', mode.codes.part)
    {
      hide *;
      r' := r;
      var cont := true;
      FineEnter(r, mode.codes.part);
      if mode.codes.part.BADCODE? {
        Open();
        BadStuck(e, mode.codes, g, Now(), br.limit);
        cont, r' := false, Z_DATA_ERROR;
      }
      while cont
        invariant Valid() && mode.CODES? && br.limit == old(br.limit) && g.steps >= old(g.steps) && br.bp >= old(br.bp)
        invariant cont ==> !mode.codes.part.BADCODE?
        invariant !cont && (mode.codes.part.WASH? || mode.codes.part.END?) ==> br.bitk < 8
        invariant !cont && r' != Z_STREAM_END ==> win.avail == 0 || Stuck(e, g, br.limit)
        invariant win.avail + |win.sink| == old(win.avail) + |old(win.sink)|
        invariant Fine(r', mode.codes.part)
        decreases 8 * br.limit - br.bp, Rank(mode)
      {
        Open();
        if mode.codes.part.END? {
          FewIs(mode, br.bitk);
          cont, r' := false, Z_STREAM_END;
          break;
        }
        cont, r' := DoCodes(r');
        if !cont {
          ValidStands();
          FewIs(mode, br.bitk);
          break;
        }
      }
      var r0 := r';
      r' := FlushAll(r');
      FineFlushed(r0, r', mode.codes.part);
    }

    // ---- inflate_blocks ----

    /** BTREE: one length, or the table when all are read. */
    method DoBTree(table: nat, index: nat, blens: seq<nat>, r: Ret) returns (cont: bool, r': Ret)
      requires Valid() && mode == BTREE(table, index, blens) && Going(r)
      modifies this`mode, this`g, br, hufts
      ensures Valid() && br.limit == old(br.limit) && g.steps >= old(g.steps)
      ensures cont ==> br.bp > old(br.bp) || (br.bp == old(br.bp) && mode.DTREE?)
      ensures !cont ==> Stuck(e, g, br.limit)
      ensures cont ==> Going(r')
      ensures Says(r', mode)
    {
      hide *;
      LenCodesIs(table);
      if index < 4 + table / 1024 {
        cont, r' := DoBits(table, index, blens, r);
      } else {
        cont, r' := DoBitsTree(table, index, blens, r);
      }
    }

    /** DTREE: one length or repeat, or the trees when all are read. */
    method DoDTree(table: nat, index: nat, blens: seq<nat>, bb: nat, tb: nat, r: Ret) returns (cont: bool, r': Ret)
      requires Valid() && mode == DTREE(table, index, blens, bb, tb) && Going(r)
      modifies this`mode, this`g, br, hufts
      ensures Valid() && br.limit == old(br.limit) && g.steps >= old(g.steps)
      ensures cont ==> br.bp > old(br.bp) || (br.bp == old(br.bp) && mode.CODES?)
      ensures !cont ==> Stuck(e, g, br.limit)
      ensures cont ==> Going(r')
      ensures Says(r', mode)
    {
      hide *;
      Open();
      DTreeRoom(e, table, index, blens, bb, tb, g, Now());
      TableSizes(table);
      if index < 258 + table % 32 + (table / 32) % 32 {
        cont, r' := DoLength(table, index, blens, bb, tb, r);
      } else {
        cont, r' := DoTrees(table, blens, bb, tb, r);
      }
    }

    /** CODES: runs inflate_codes and goes on when the block is over. */
    method DoBlock(r: Ret) returns (cont: bool, r': Ret)
      requires Valid() && mode.CODES? && Going(r)
      modifies this`mode, this`g, br, win, win.window
      ensures Valid() && br.limit == old(br.limit) && g.steps >= old(g.steps)
      ensures cont ==> br.bp >= old(br.bp) && (mode.DRY? || mode.TYPE?)
      ensures !cont ==> win.avail == 0 || Stuck(e, g, br.limit)
      ensures win.avail + |win.sink| == old(win.avail) + |old(win.sink)|
      ensures cont ==> Going(r')
      ensures Says(r', mode)
    {
      hide *;
      r' := InflateCodes(r);
      cont := r' == Z_STREAM_END;
      if !cont {
        FineSays(r', mode);
        return;
      }
      Open();
      ghost var x := g;
      var cs := mode.codes;
      if cs.part.WASH? {
        x := WashFits(e, cs, x, Now(), br.limit);
      }
      ghost var c := cs.(part := END);
      x := EndFits(e, c, x, Now(), br.limit);
      AfterBlockIs(last);
      mode, g := AfterBlock(last), x;
      FewLow(mode, br.bitk);
      Close();
      r' := Z_OK;
      SaysOK(mode);
    }

    /** DRY: delivers all output before the end is told. */
    method DoDry(r: Ret) returns (cont: bool, r': Ret)
      requires Valid() && mode.DRY? && Going(r)
      modifies this`mode, this`g, win
      ensures Valid() && g.steps >= old(g.steps)
      ensures cont ==> mode.DONE?
      ensures !cont ==> win.avail == 0
      ensures win.avail + |win.sink| == old(win.avail) + |old(win.sink)|
      ensures !cont ==> Says(r', mode)
    {
      hide *;
      r' := FlushAll(r);
      SaysGo(r, r', mode);
      cont := win.read == win.write;
      if cont {
        Open();
        AllDelivered();
        FewIs(mode, br.bitk);
        ghost var x := DryFits(e, g, Now(), br.limit);
        mode, g := DONE, x;
        FewLow(mode, br.bitk);
        Close();
      }
    }

    /** An empty gap between the read and write index means that nothing is left to deliver. */
    lemma AllDelivered()
      requires win.Valid() && win.read == win.write
      ensures win.sink == win.out
    {
      assert win.out[..|win.sink|] == win.out;
    }

    /** At the end of the stream no byte has been taken beyond the one that holds the last bit used. */
    lemma NoByteTooMany()
      requires Valid()
      ensures mode.DONE? ==> br.bp <= 8 * br.pos < br.bp + 8
    {
      hide *;
      Open();
      FewIs(mode, br.bitk);
    }

    /** One round of the loop of inflate_blocks, short of DONE and BAD. */
    method DoOne(r: Ret) returns (cont: bool, r': Ret)
      requires Valid() && !mode.DONE? && !mode.BAD? && Going(r)
      modifies this`mode, this`last, this`g, br, win, win.window, hufts
      ensures Valid() && br.limit == old(br.limit) && g.steps >= old(g.steps)
      ensures cont ==> br.bp > old(br.bp) || (br.bp == old(br.bp) && Depth(mode) < old(Depth(mode)))
      ensures !cont ==> win.avail == 0 || Stuck(e, g, br.limit)
      ensures win.avail + |win.sink| == old(win.avail) + |old(win.sink)|
      ensures cont ==> mode.DONE? || Going(r')
      ensures !cont ==> Says(r', mode)
    {
      hide *;
      DepthIs(mode);
      match mode
      case TYPE =>
        cont, r' := DoType(r);
      case LENS =>
        cont, r' := DoLens(r);
      case STORED(left) =>
        cont, r' := DoStored(left, r);
      case TABLE =>
        cont, r' := DoTable(r);
      case BTREE(table, index, blens) =>
        cont, r' := DoBTree(table, index, blens, r);
        DepthIs(mode);
      case DTREE(table, index, blens, bb, tb) =>
        cont, r' := DoDTree(table, index, blens, bb, tb, r);
        DepthIs(mode);
      case CODES(_) =>
        cont, r' := DoBlock(r);
        DepthIs(mode);
      case DRY =>
        cont, r' := DoDry(r);
        DepthIs(mode);
    }

    /**
     * inflate_blocks: goes on until the caller's room is used up or the machine can do nothing
     * more with the input supplied, all output produced being delivered in the latter case.
     */
    method Blocks(r: Ret) returns (r': Ret)
      requires Valid() && Going(r)
      modifies this`mode, this`last, this`g, br, win, win.window, hufts
      ensures Valid() && br.limit == old(br.limit) && g.steps >= old(g.steps)
      ensures win.avail == 0 || (win.sink == win.out && Stuck(e, g, br.limit))
      ensures win.avail + |win.sink| == old(win.avail) + |old(win.sink)|
      ensures Says(r', mode)
      ensures r' == Z_STREAM_END ==> br.bp <= 8 * br.pos < br.bp + 8
    {
      hide *;
      r' := r;
      while !mode.DONE? && !mode.BAD?
        invariant Valid() && br.limit == old(br.limit) && g.steps >= old(g.steps)
        invariant win.avail + |win.sink| == old(win.avail) + |old(win.sink)|
        invariant !mode.DONE? && !mode.BAD? ==> Going(r')
        decreases 8 * br.limit - br.bp, Depth(mode)
      {
        Open();
        var cont;
        cont, r' := DoOne(r');
        if !cont {
          var r0 := r';
          r' := FlushAll(r');
          SaysFlushed(r0, r', mode);
          NoByteTooMany();
          return;
        }
      }
      Open();
      EndedStuck(e, mode, g, Now(), br.limit);
      r' := if mode.DONE? then Z_STREAM_END else Z_DATA_ERROR;
      SaysEnded(mode);
      NoByteTooMany();
      r' := FlushAll(r');
    }
  }

  /** Return codes of a step that goes on. */
  predicate Going(r: Ret) { r == Z_OK || r == Z_BUF_ERROR }

  /** The return code tells the mode. */
  predicate Says(r: Ret, m: BlockPart) {
    && (r == Z_DATA_ERROR <==> m.BAD? || (m.CODES? && m.codes.part.BADCODE?))
    && (r == Z_STREAM_END <==> m.DONE?)
  }

  lemma SaysGo(r: Ret, r': Ret, m: BlockPart)
    requires Going(r) && (r' == r || r' == Z_OK) && !m.BAD? && !m.DONE? && (m.CODES? ==> !m.codes.part.BADCODE?)
    ensures Going(r') && Says(r', m)
  {
  }

  lemma SaysBad(m: BlockPart)
    requires m.BAD? || (m.CODES? && m.codes.part.BADCODE?)
    ensures Says(Z_DATA_ERROR, m)
  {
  }

  /** ... inside inflate_codes: once the end of the block is found the code may say so. */
  predicate Fine(r: Ret, p: CodesPart) {
    && (r == Z_DATA_ERROR <==> p.BADCODE?)
    && (r == Z_STREAM_END ==> p.WASH? || p.END?)
  }

  lemma FineGo(r: Ret, r': Ret, p: CodesPart, p': CodesPart)
    requires Fine(r, p) && (r' == r || r' == Z_OK) && !p.WASH? && !p.END? && !p.BADCODE? && !p'.BADCODE?
    ensures Fine(r', p')
  {
  }

  lemma FineBad(p: CodesPart)
    requires p.BADCODE?
    ensures Fine(Z_DATA_ERROR, p)
  {
  }

  lemma FineWash(r: Ret, r': Ret)
    requires Fine(r, WASH) && (r' == r || r' == Z_OK)
    ensures Fine(r', WASH) && Fine(r', END)
  {
  }

  /** Where inflate_fast leaves inflate_codes. */
  function FastEnd(q: Ret): CodesPart {
    if q == Z_OK then START else if q == Z_STREAM_END then WASH else BADCODE
  }

  lemma FastEndIs()
    ensures FastEnd(Z_OK) == START && FastEnd(Z_STREAM_END) == WASH && FastEnd(Z_DATA_ERROR) == BADCODE
  {
  }

  lemma FineFast(q: Ret)
    requires q == Z_OK || q == Z_DATA_ERROR || q == Z_STREAM_END
    ensures Fine(q, FastEnd(q))
  {
  }

  lemma FineStart(r: Ret, r': Ret, tree: nat, need: nat)
    requires Fine(r, START) && (r' == r || r' == Z_OK)
    ensures Fine(r', LEN(tree, need))
  {
  }

  lemma RankIs(m: BlockPart)
    ensures m.CODES? ==> match m.codes.part
      case LENEXT(_, _) => Rank(m) == 9
      case DISTEXT(_, _, _) => Rank(m) == 9
      case COPY(_, _) => Rank(m) == 8
      case LIT(_) => Rank(m) == 8
      case START => Rank(m) == 7
      case LEN(_, _) => Rank(m) == 6
      case DIST(_, _, _) => Rank(m) == 6
      case WASH => Rank(m) == 5
      case END => Rank(m) == 4
      case BADCODE => Rank(m) == 3
  {
  }

  lemma FineEnter(r: Ret, p: CodesPart)
    requires Going(r)
    ensures Fine(if p.BADCODE? then Z_DATA_ERROR else r, p)
  {
  }

  lemma FineFlushed(r: Ret, r': Ret, p: CodesPart)
    requires Fine(r, p) && (r' == r || (r == Z_BUF_ERROR && r' == Z_OK))
    ensures Fine(r', p) && (r' == Z_STREAM_END ==> p.WASH? || p.END?)
  {
  }

  /** Block modes passed through without consuming a bit get smaller. */
  function Depth(m: BlockPart): nat {
    match m
    case BTREE(_, _, _) => 5
    case DTREE(_, _, _, _, _) => 4
    case CODES(_) => 3
    case DRY => 2
    case DONE => 0
    case BAD => 0
    case _ => 1
  }

  lemma DepthIs(m: BlockPart)
    ensures m.BTREE? ==> Depth(m) == 5
    ensures m.DTREE? ==> Depth(m) == 4
    ensures m.CODES? ==> Depth(m) == 3
    ensures m.DRY? ==> Depth(m) == 2
    ensures m.TYPE? ==> Depth(m) == 1
    ensures m.DONE? ==> Depth(m) == 0
  {
  }

  lemma LenCodesIs(table: nat)
    ensures LenCodes(table) == 4 + table / 1024
  {
  }

  lemma FineSays(r: Ret, m: BlockPart)
    requires m.CODES? && Fine(r, m.codes.part) && r != Z_STREAM_END
    ensures Says(r, m)
  {
  }

  lemma SaysOK(m: BlockPart)
    requires m.DRY? || m.TYPE?
    ensures Going(Z_OK) && Says(Z_OK, m)
  {
  }

  lemma SaysFlushed(r: Ret, r': Ret, m: BlockPart)
    requires Says(r, m) && (r' == r || (r == Z_BUF_ERROR && r' == Z_OK))
    ensures Says(r', m)
  {
  }

  lemma SaysEnded(m: BlockPart)
    requires m.DONE? || m.BAD?
    ensures Says(if m.DONE? then Z_STREAM_END else Z_DATA_ERROR, m)
  {
  }

  lemma AfterBlockIs(last: bool)
    ensures AfterBlock(last) == if last then DRY else TYPE
  {
  }
}
