/** find_identical_file, eliminate_doubles and write_data of mkcramfs.c: entries with the same data share its place. */
module CramfsDoubles {
  import opened Stream
  import opened InflateTrees
  import opened CramfsTree
  import CramfsLayout

  /** Both hold data of the same size with the same bytes. */
  predicate Identical(a: Entry, b: Entry) {
    a.size == b.size && a.data.Some? && b.data.Some? && a.data == b.data
  }

  /** A file or a link that is not empty. */
  predicate Full(e: Entry) { e.size > 0 && e.data.Some? }

  predicate Hit(a: Entry, x: Entry) { a == x || Identical(a, x) }

  /** The first entry that is x or identical to x; the length if there is none. */
  function First(p: seq<Entry>, x: Entry): (j: nat)
    ensures j <= |p|
    ensures j < |p| ==> Hit(p[j], x)
    ensures forall k | 0 <= k < j :: !Hit(p[k], x)
  {
    if p == [] then 0 else if Hit(p[0], x) then 0 else 1 + First(p[1..], x)
  }

  lemma FirstIs(p: seq<Entry>, x: Entry, j: nat)
    requires j <= |p| && (j < |p| ==> Hit(p[j], x)) && forall k | 0 <= k < j :: !Hit(p[k], x)
    ensures First(p, x) == j
  {
    var i := First(p, x);
  }

  lemma FirstTwo(p: seq<Entry>, q: seq<Entry>, x: Entry)
    ensures First(p + q, x) == if First(p, x) < |p| then First(p, x) else |p| + First(q, x)
  {
    var j := if First(p, x) < |p| then First(p, x) else |p| + First(q, x);
    forall k | 0 <= k < j
      ensures !Hit((p + q)[k], x)
    {
      if k >= |p| {
        assert (p + q)[k] == q[k - |p|];
      }
    }
    FirstIs(p + q, x, j);
  }

  /** The entry whose data stands for that of x, or null if x comes first itself. */
  function Twin(p: seq<Entry>, x: Entry): Entry? {
    var j := First(p, x);
    if j < |p| && p[j] != x then p[j] else null
  }

  /** Looks through the tree, in order, for the file itself or one with the same data. */
  method FindIdentical(orig: Entry?, ghost f: Forest, x: Entry) returns (found: bool)
    requires Links(orig, f)
    modifies x`same
    ensures found <==> First(Pre(f), x) < |Pre(f)|
    ensures x.same == if found && Pre(f)[First(Pre(f), x)] != x then Pre(f)[First(Pre(f), x)] else old(x.same)
    decreases f
  {
    hide First, Identical;
    if orig == x {
      FirstIs(Pre(f), x, 0);
      return true;
    }
    if orig == null {
      FirstIs(Pre(f), x, 0);
      return false;
    }
    PreNode(f);
    var same := Same(orig, x);
    if same {
      x.same := orig;
      FirstIs(Pre(f), x, 0);
      return true;
    }
    FirstNot(orig, x);
    FirstTwo([orig] + Pre(f.child), Pre(f.next), x);
    FirstTwo([orig], Pre(f.child), x);
    found := FindIdentical(orig.child, f.child, x);
    if !found {
      found := FindIdentical(orig.next, f.next, x);
    }
  }

  /** The comparison of sizes and contents. */
  method Same(a: Entry, b: Entry) returns (r: bool)
    ensures r <==> Identical(a, b)
  {
    r := a.size == b.size && a.data.Some? && b.data.Some? && a.data.value == b.data.value;
  }

  lemma PreNode(f: Forest)
    requires f.Node?
    ensures Pre(f) == ([f.e] + Pre(f.child)) + Pre(f.next)
  {
  }

  lemma FirstNot(e: Entry, x: Entry)
    requires !Hit(e, x)
    ensures First([e], x) == 1
  {
    FirstIs([e], x, 1);
  }

  /** After eliminate_doubles: what every entry that is not empty points to. */
  ghost predicate Doubled(s: seq<Entry>, p: seq<Entry>)
    reads set x | x in s :: x`same
  {
    forall x | x in s :: x.same == if Full(x) then Twin(p, x) else null
  }

  ghost predicate Single(s: seq<Entry>)
    reads set x | x in s :: x`same
  {
    forall x | x in s :: x.same == null
  }

  method EliminateDoubles(root: Entry?, ghost all: Forest, orig: Entry?, ghost f: Forest)
    requires Links(root, all) && Links(orig, f) && Distinct(Pre(f)) && Single(Pre(f))
    modifies set x | x in Pre(f) :: x`same
    ensures Doubled(Pre(f), Pre(all))
    decreases f
  {
    hide First, Identical, Twin, Distinct;
    if orig != null {
      PreParts(f);
      assert Single(Pre(f.child)) && Single(Pre(f.next)) && orig.same == null;
      if orig.size > 0 && orig.data.Some? {
        TwinIs(Pre(all), orig);
        var found := FindIdentical(root, all, orig);
      }
      EliminateDoubles(root, all, orig.child, f.child);
      EliminateDoubles(root, all, orig.next, f.next);
    }
  }

  lemma TwinIs(p: seq<Entry>, x: Entry)
    ensures Twin(p, x) == if First(p, x) < |p| && p[First(p, x)] != x then p[First(p, x)] else null
  {
  }

  /** The parts of a tree have no entry in common. */
  lemma PreParts(f: Forest)
    requires f.Node? && Distinct(Pre(f))
    ensures Distinct(Pre(f.child)) && Distinct(Pre(f.next))
    ensures f.e !in Pre(f.child) && f.e !in Pre(f.next) && forall x | x in Pre(f.child) :: x !in Pre(f.next)
    ensures forall x | x in Pre(f) :: x == f.e || x in Pre(f.child) || x in Pre(f.next)
    ensures f.e in Pre(f) && (forall x | x in Pre(f.child) :: x in Pre(f))
    ensures forall x | x in Pre(f.next) :: x in Pre(f)
  {
    hide Links;
    var p, c, n := Pre(f), Pre(f.child), Pre(f.next);
    assert p[0] == f.e;
    assert forall i | 0 <= i < |c| :: c[i] == p[1 + i];
    assert forall i | 0 <= i < |n| :: n[i] == p[1 + |c| + i];
  }

  /** The entry that another's data is found in comes first and has no such entry itself. */
  lemma TwinIsFirst(p: seq<Entry>, i: nat)
    requires Distinct(p) && i < |p| && Full(p[i])
    ensures First(p, p[i]) <= i
    ensures Twin(p, p[i]) != null ==> First(p, p[i]) < i && Full(Twin(p, p[i])) && Twin(p, Twin(p, p[i])) == null
    ensures Twin(p, p[i]) != null ==> Identical(Twin(p, p[i]), p[i])
  {
    hide First, Distinct;
    var x := p[i];
    FirstBefore(p, x, i);
    var j := First(p, x);
    FirstHit(p, x);
    if p[j] != x {
      var y := p[j];
      assert Identical(y, x);
      forall k | 0 <= k < j
        ensures !Hit(p[k], y)
      {
        FirstMiss(p, x, k);
        DistinctAt(p, k, j);
      }
      FirstIs(p, y, j);
    }
  }

  lemma DistinctAt(p: seq<Entry>, i: nat, j: nat)
    requires Distinct(p) && i < j < |p|
    ensures p[i] != p[j]
  {
  }

  lemma FirstBefore(p: seq<Entry>, x: Entry, i: nat)
    requires i < |p| && p[i] == x
    ensures First(p, x) <= i
  {
    var j := First(p, x);
  }

  lemma FirstHit(p: seq<Entry>, x: Entry)
    requires First(p, x) < |p|
    ensures Hit(p[First(p, x)], x)
  {
  }

  lemma FirstMiss(p: seq<Entry>, x: Entry, k: nat)
    requires k < First(p, x)
    ensures k < |p| && !Hit(p[k], x)
  {
  }

  // ---- write_data ----

  /** Data is placed; a double shares the place of the entry it points to. */
  ghost predicate Placed(s: seq<Entry>)
    reads s
  {
    forall x | x in s && x.data.Some? ::
      && 4 * x.stored == x.offset
      && (x.same == null || (x.same in s && x.same.data.Some? && x.same.same == null && x.same.offset == x.offset))
  }

  /** Entries that are no doubles lie apart, all below limit. */
  ghost predicate Apart(s: seq<Entry>, limit: nat)
    reads s
  {
    && (forall x | x in s && x.data.Some? && x.same == null :: x.offset < limit)
    && (forall x, y | x in s && y in s && x.data.Some? && y.data.Some? && x.same == null && y.same == null && x != y ::
       x.offset != y.offset)
  }

  /** A double points to an entry before it that is none. */
  ghost predicate Backward(p: seq<Entry>)
    reads set x | x in p :: x`same
  {
    forall i | 0 <= i < |p| && p[i].data.Some? && p[i] in p ::
      p[i].same == null || (p[i].same in p[..i] && p[i].same in p && p[i].same.data.Some? && p[i].same.same == null)
  }

  lemma DoubledBackward(p: seq<Entry>)
    requires Distinct(p) && Doubled(p, p) && forall x | x in p && x.data.Some? :: x.size > 0
    ensures Backward(p)
  {
    hide First, Identical, Twin, Distinct;
    forall i | 0 <= i < |p| && p[i].data.Some? && p[i].same != null
      ensures p[i].same in p[..i] && p[i].same.data.Some? && p[i].same.same == null
    {
      TwinIsFirst(p, i);
      TwinIs(p, p[i]);
      assert p[..i][First(p, p[i])] == p[i].same;
    }
  }

  /** Some compressor: the data takes whole words, and at least the one block pointer. */
  method DoCompress(e: Entry, offset: nat) returns (end: nat)
    requires offset % 4 == 0
    ensures end > offset && end % 4 == 0
  {
    var words: nat :| words >= 0;
    end := offset + 4 * (words + 1);
  }

  /** Places the data of one entry. */
  method PlaceData(e: Entry, offset: nat, ghost s: seq<Entry>) returns (ok: bool, end: nat)
    requires e.data.Some? && e !in s && Placed(s) && Apart(s, offset) && offset % 4 == 0
    requires e.same == null || (e.same in s && e.same.data.Some? && e.same.same == null)
    modifies e`stored, e`offset
    ensures ok ==> Placed(s + [e]) && Apart(s + [e], end) && end >= offset && end % 4 == 0
    ensures !ok ==> end >= CramfsLayout.OFFSET_LIMIT
  {
    end := offset;
    if e.same != null {
      ok := CramfsLayout.SetDataOffset(e, e.same.offset);
      if ok {
        e.offset := e.same.offset;
      }
    } else {
      ok := CramfsLayout.SetDataOffset(e, offset);
      if ok {
        e.offset := offset;
        end := DoCompress(e, offset);
      }
    }
  }

  lemma PlacedOther(s: seq<Entry>, e: Entry, limit: nat)
    requires Placed(s) && Apart(s, limit) && e.data.None?
    ensures Placed(s + [e]) && Apart(s + [e], limit)
  {
  }

  /** The part of the order that is done, and the part that a call has to do. */
  ghost predicate Next(p: seq<Entry>, s: seq<Entry>, t: seq<Entry>) {
    |s| + |t| <= |p| && p[..|s|] == s && p[|s|..|s| + |t|] == t
  }

  lemma NextSplit(p: seq<Entry>, s: seq<Entry>, t: seq<Entry>, u: seq<Entry>)
    requires Next(p, s, t + u)
    ensures Next(p, s, t) && Next(p, s + t, u)
  {
    assert p[|s|..|s| + |t|] == (t + u)[..|t|];
    assert p[|s| + |t|..|s| + |t| + |u|] == (t + u)[|t|..];
    assert p[..|s| + |t|] == p[..|s|] + p[|s|..|s| + |t|];
  }

  lemma NextHead(p: seq<Entry>, s: seq<Entry>, e: Entry)
    requires Next(p, s, [e]) && Distinct(p)
    ensures |s| < |p| && p[..|s|] == s && p[|s|] == e && e in p && e !in s
  {
    assert p[|s|..|s| + 1][0] == p[|s|];
    forall k | 0 <= k < |s|
      ensures s[k] != e
    {
      assert s[k] == p[k];
    }
  }

  lemma NextParts(p: seq<Entry>, s: seq<Entry>, f: Forest)
    requires f.Node? && Distinct(p) && Next(p, s, Pre(f))
    ensures f.e in p && f.e !in s && |s| < |p| && p[..|s|] == s && p[|s|] == f.e
    ensures Next(p, s + [f.e], Pre(f.child)) && Next(p, s + [f.e] + Pre(f.child), Pre(f.next))
    ensures s + Pre(f) == s + [f.e] + Pre(f.child) + Pre(f.next)
  {
    hide *;
    PreNode(f);
    NextSplit(p, s, [f.e] + Pre(f.child), Pre(f.next));
    NextSplit(p, s, [f.e], Pre(f.child));
    NextHead(p, s, f.e);
    CramfsLayout.Regroup(s, [f.e], Pre(f.child));
    CramfsLayout.Regroup(s, [f.e] + Pre(f.child), Pre(f.next));
  }

  lemma BackwardAt(p: seq<Entry>, s: seq<Entry>, e: Entry)
    requires Backward(p) && |s| < |p| && p[..|s|] == s && p[|s|] == e && e.data.Some?
    ensures e.same == null || (e.same in s && e.same.data.Some? && e.same.same == null)
  {
  }

  /** write_data: in the same order as before, so that the place to share is always known. */
  method WriteData(first: Entry, ghost f: Forest, offset0: nat, ghost p: seq<Entry>, ghost s0: seq<Entry>)
    returns (ok: bool, offset: nat)
    requires Links(first, f) && f.Node? && Distinct(p) && Next(p, s0, Pre(f)) && Backward(p)
    requires Placed(s0) && Apart(s0, offset0) && offset0 % 4 == 0
    requires forall x | x in p :: x.data.Some? ==> x.child == null
    modifies set x | x in p :: x`stored
    modifies set x | x in p :: x`offset
    ensures ok ==> Placed(s0 + Pre(f)) && Apart(s0 + Pre(f), offset) && offset >= offset0 && offset % 4 == 0
    ensures !ok ==> offset >= CramfsLayout.OFFSET_LIMIT
    ensures forall x | x in p && x.data.None? :: x.stored == old(x.stored)
    decreases f
  {
    hide Placed, Apart, Backward, Distinct, Next, Links, Pre;
    var entry: Entry? := first;
    ghost var g, s: seq<Entry> := f, s0;
    offset, ok := offset0, true;
    while entry != null
      invariant Links(entry, g) && Next(p, s, Pre(g)) && s + Pre(g) == s0 + Pre(f) && Backward(p)
      invariant Placed(s) && Apart(s, offset) && offset >= offset0 && offset % 4 == 0
      invariant g == f || g < f
      invariant forall x | x in p && x.data.None? :: x.stored == old(x.stored)
      decreases g
    {
      CramfsLayout.LinksNode(entry, g);
      NextParts(p, s, g);
      if entry.data.Some? {
        BackwardAt(p, s, entry);
        ok, offset := PlaceData(entry, offset, s);
        if !ok {
          return;
        }
        CramfsLayout.LinksNull(g.child);
        PreNil();
        assert s + [entry] + [] == s + [entry];
        s := s + [entry];
      } else {
        PlacedOther(s, entry, offset);
        s := s + [entry];
        if entry.child != null {
          ok, offset := WriteData(entry.child, g.child, offset, p, s);
          if !ok {
            return;
          }
          s := s + Pre(g.child);
        } else {
          CramfsLayout.LinksNull(g.child);
          PreNil();
          assert s + [] == s;
        }
      }
      entry := entry.next;
      g := g.next;
    }
    CramfsLayout.LinksNull(g);
    PreNil();
    assert s + [] == s;
  }

  lemma PreNil()
    ensures Pre(Nil) == []
  {
  }

  /** With everything written, two entries have the same place exactly if they hold the same data. */
  lemma SharedIffIdentical(p: seq<Entry>, limit: nat, i: nat, j: nat)
    requires Distinct(p) && Doubled(p, p) && Placed(p) && Apart(p, limit) && i < |p| && j < |p|
    requires Full(p[i]) && Full(p[j])
    ensures p[i].offset == p[j].offset <==> Identical(p[i], p[j])
  {
    hide First, Distinct, Twin;
    TwinIsFirst(p, i);
    TwinIsFirst(p, j);
    TwinIs(p, p[i]);
    TwinIs(p, p[j]);
    var x, y := p[First(p, p[i])], p[First(p, p[j])];
    FirstHit(p, p[i]);
    FirstHit(p, p[j]);
    if Identical(p[i], p[j]) {
      SameFirst(p, p[i], p[j]);
    }
  }

  // ---- the whole image ----

  /** Every entry with data holds some, and has no children. */
  ghost predicate Leafy(p: seq<Entry>) { forall x | x in p && x.data.Some? :: x.size > 0 && x.child == null }

  lemma Everyone(f: Forest, x: Entry)
    ensures x in Emit(f) <==> x in Pre(f)
  {
    hide Emit, Pre;
    EmitAll(f);
    assert x in multiset(Emit(f)) <==> x in Emit(f);
    assert x in multiset(Pre(f)) <==> x in Pre(f);
  }

  lemma ChildrenOf(f: Forest)
    requires f.Node? && f.next == Nil && Distinct(Pre(f))
    ensures Pre(f) == [f.e] + Pre(f.child) && Distinct(Pre(f.child))
    ensures forall x | x in Emit(f.child) :: x in Pre(f) && x != f.e
  {
    hide Emit;
    PreParts(f);
    forall x | x in Emit(f.child)
      ensures x in Pre(f) && x != f.e
    {
      Everyone(f.child, x);
    }
  }

  /**
   * The offset field of every inode: the place of the first entry of a directory, of the data of a file, or nothing.
   */
  ghost predicate Resolved(x: Entry)
    reads x, x.child
  {
    if x.child != null then 4 * x.stored == x.child.dirOffset
    else if x.data.Some? then 4 * x.stored == x.offset
    else x.stored == 0
  }

  lemma AllResolved(p: seq<Entry>, nodes: seq<Entry>)
    requires Placed(p) && Leafy(p) && forall x | x in nodes :: x in p && (x.data.None? ==> CramfsLayout.Points(x))
    ensures forall x | x in nodes :: Resolved(x)
  {
  }

  lemma AllShared(p: seq<Entry>, limit: nat)
    requires Distinct(p) && Doubled(p, p) && Placed(p) && Apart(p, limit)
    ensures forall x, y | x in p && y in p && Full(x) && Full(y) :: x.offset == y.offset <==> Identical(x, y)
  {
    hide Distinct, Doubled, Placed, Apart, Identical, Full;
    forall x, y | x in p && y in p && Full(x) && Full(y)
      ensures x.offset == y.offset <==> Identical(x, y)
    {
      var i :| 0 <= i < |p| && p[i] == x;
      var j :| 0 <= j < |p| && p[j] == y;
      SharedIffIdentical(p, limit, i, j);
    }
  }

  /**
   * What main does with the entry tree: finds the doubles, lays out the directories and places the
   * data. Afterwards every inode and name is in its place, every offset field says where to go on,
   * and files share a place just if they hold the same. It fails only when the image is too large.
   */
  method MakeImage(root: Entry, ghost f: Forest, img: array<byte>, offset0: nat)
    returns (ok: bool, offset: nat, ghost nodes: seq<Entry>)
    requires Links(root, f) && f.Node? && f.next == Nil && Distinct(Pre(f)) && Single(Pre(f)) && Leafy(Pre(f))
    requires root.data.None?
    requires offset0 % 4 == 0 && offset0 + Size(Emit(f.child)) <= img.Length
    modifies img, set x | x in Pre(f)
    ensures ok ==> nodes == Emit(f.child) && CramfsLayout.Laid(nodes, offset0)
    ensures ok ==> CramfsLayout.Named(img[..], nodes, offset0) && CramfsLayout.Filled(nodes)
    ensures ok ==> forall x | x in nodes :: Resolved(x)
    ensures ok ==> forall x, y | x in Pre(f) && y in Pre(f) && Full(x) && Full(y) ::
      x.offset == y.offset <==> Identical(x, y)
    ensures !ok ==> offset >= CramfsLayout.OFFSET_LIMIT || offset0 + Size(Emit(f.child)) >= CramfsLayout.OFFSET_LIMIT
  {
    hide Placed, Apart, Backward, Distinct, Next, Links, Pre, Emit, Size, First, Twin, Identical, Full, Doubled, Single,
      Resolved, CramfsLayout.Named, CramfsLayout.Filled;
    ghost var p := Pre(f);
    PreAllocated(f);
    CramfsLayout.LinksNode(root, f);
    ChildrenOf(f);
    EliminateDoubles(root, f, root, f);
    assert forall x: Entry | x in p :: (x as object) != (img as object);
    ok, offset, nodes := CramfsLayout.WriteDirectoryStructure(root.child, f.child, img, offset0);
    if !ok {
      return;
    }
    CramfsLayout.SizeFour(nodes);
    DoubledBackward(p);
    StartData(p, offset);
    ok, offset := WriteData(root, f, offset, p, []);
    if ok {
      assert [] + p == p;
      AllShared(p, offset);
      AllResolved(p, nodes);
    }
  }

  lemma {:induction false} PreAllocated(f: Forest)
    ensures forall x: Entry | x in Pre(f) :: allocated(x)
  {
    if f.Node? {
      PreAllocated(f.child);
      PreAllocated(f.next);
    }
  }

  lemma StartData(p: seq<Entry>, offset: nat)
    ensures Next(p, [], p) && Placed([]) && Apart([], offset)
  {
  }

  lemma SameFirst(p: seq<Entry>, x: Entry, y: Entry)
    requires Identical(x, y)
    requires First(p, x) < |p| && First(p, y) < |p| && Identical(p[First(p, x)], x) && Identical(p[First(p, y)], y)
    ensures First(p, x) == First(p, y)
  {
    hide First;
    if First(p, x) < First(p, y) {
      FirstMiss(p, y, First(p, x));
    }
    if First(p, y) < First(p, x) {
      FirstMiss(p, x, First(p, y));
    }
  }
}
