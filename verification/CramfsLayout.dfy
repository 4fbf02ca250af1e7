/** write_directory_structure of mkcramfs.c: a stack of directories, reversed segment by segment, lays out the tree. */
module CramfsLayout {
  import opened Stream
  import opened InflateTrees
  import opened CramfsTree

  /** Offsets are kept in 26 bits, in words. */
  const OFFSET_LIMIT: nat := 0x1000_0000

  /** What is still to be laid out for the directories on the stack, the top one first. */
  function Pending(fs: seq<Forest>): seq<Entry> {
    if fs == [] then [] else Emit(fs[|fs| - 1]) + Pending(fs[..|fs| - 1])
  }

  /** What is to be laid out for the directories pushed in this order, first come first served. */
  function InTurn(fs: seq<Forest>): seq<Entry> {
    if fs == [] then [] else InTurn(fs[..|fs| - 1]) + Emit(fs[|fs| - 1])
  }

  function Reversed(fs: seq<Forest>): seq<Forest> {
    if fs == [] then [] else [fs[|fs| - 1]] + Reversed(fs[..|fs| - 1])
  }

  lemma {:induction false} ReversedAt(fs: seq<Forest>)
    ensures |Reversed(fs)| == |fs| && forall k | 0 <= k < |fs| :: Reversed(fs)[k] == fs[|fs| - 1 - k]
    decreases |fs|
  {
    if fs != [] {
      ReversedAt(fs[..|fs| - 1]);
    }
  }

  lemma PendingOne(base: seq<Forest>, f: Forest)
    ensures Pending(base + [f]) == Emit(f) + Pending(base)
  {
    assert (base + [f])[..|base|] == base;
  }

  /** Reversing the directories just pushed makes the stack hand them out in turn. */
  lemma {:induction false} PendingReversed(base: seq<Forest>, fs: seq<Forest>)
    ensures Pending(base + Reversed(fs)) == InTurn(fs) + Pending(base)
    decreases |fs|
  {
    hide Emit, Pending;
    if fs == [] {
      assert base + [] == base;
    } else {
      var f, gs := fs[|fs| - 1], fs[..|fs| - 1];
      PendingReversed(base + [f], gs);
      Regroup(base, [f], Reversed(gs));
      PendingOne(base, f);
      Regroup(InTurn(gs), Emit(f), Pending(base));
    }
  }

  lemma Regroup<T>(a: seq<T>, b: seq<T>, c: seq<T>)
    ensures a + (b + c) == (a + b) + c
  {
  }

  lemma InTurnOne(fs: seq<Forest>, f: Forest)
    ensures InTurn(fs + [f]) == InTurn(fs) + Emit(f)
  {
    assert (fs + [f])[..|fs|] == fs;
  }

  /** Each inode lies where the ones before it end. */
  ghost predicate Laid(nodes: seq<Entry>, start: nat)
    reads nodes
  {
    forall k | 0 <= k < |nodes| :: nodes[k].dirOffset == start + Size(nodes[..k])
  }

  /** The inode of a non-empty directory gives the place of its first entry; others give none. */
  ghost predicate Points(x: Entry)
    reads x, x.child
  {
    if x.child == null then x.stored == 0 else 4 * x.stored == x.child.dirOffset
  }

  /** Where the inode of the first child lies. */
  ghost function ChildPlace(x: Entry): nat
    reads x.child
  {
    if x.child == null then 0 else x.child.dirOffset
  }

  /** x points to its first entry, unless it is on the stack or was just taken off. */
  ghost predicate FineAt(x: Entry, stored: nat, place: nat, nodes: seq<Entry>, pend: seq<Entry?>, last: Entry?,
                         here: nat) {
    || (x.child != null && x in pend)
    || (x.child != null && x == last && 4 * stored == here && x.child !in nodes)
    || (if x.child == null then stored == 0 else x.child in nodes && 4 * stored == place)
  }

  ghost predicate Fine(x: Entry, nodes: seq<Entry>, pend: seq<Entry?>, last: Entry?, here: nat)
    reads x, x.child
  {
    FineAt(x, x.stored, ChildPlace(x), nodes, pend, last, here)
  }

  /** All directories laid out are so. */
  ghost predicate Linked(nodes: seq<Entry>, pend: seq<Entry?>, last: Entry?, here: nat)
    reads nodes, set x | x in nodes && x.child != null :: x.child
  {
    forall x | x in nodes :: Fine(x, nodes, pend, last, here)
  }

  /** Writing the inode of e leaves the others as they should be, and makes the one just taken off point to it. */
  lemma FineKept(x: Entry, e: Entry, stored: nat, place: nat, place': nat, nodes: seq<Entry>, pend: seq<Entry?>,
                 pend': seq<Entry?>, last: Entry?, here: nat, o: nat)
    requires FineAt(x, stored, place, nodes, pend, last, here) && x != e && e !in nodes
    requires last != null ==> last.child == e
    requires (if x.child == e then place' == here else place' == place) && (forall y | y in pend :: y in pend')
    ensures FineAt(x, stored, place', nodes + [e], pend', null, o)
  {
  }

  lemma LinkedAt(nodes: seq<Entry>, pend: seq<Entry?>, last: Entry?, here: nat, x: Entry)
    requires Linked(nodes, pend, last, here) && x in nodes
    ensures FineAt(x, x.stored, ChildPlace(x), nodes, pend, last, here)
  {
    hide FineAt;
  }

  lemma LinkedAll(nodes: seq<Entry>, pend: seq<Entry?>, last: Entry?, here: nat)
    requires forall x | x in nodes :: FineAt(x, x.stored, ChildPlace(x), nodes, pend, last, here)
    ensures Linked(nodes, pend, last, here)
  {
    hide FineAt;
  }

  // ---- the bytes of the names ----

  function Zeros(n: nat): (z: seq<byte>)
    ensures |z| == n && forall i | 0 <= i < n :: z[i] == 0
  {
    if n == 0 then [] else Zeros(n - 1) + [0]
  }

  /** A name as it stands in the image. */
  function PaddedName(e: Entry): (n: seq<byte>)
    ensures |n| == Padded(|e.name|)
  {
    e.name + Zeros(Padded(|e.name|) - |e.name|)
  }

  ghost predicate NameAt(img: seq<byte>, o: nat, e: Entry) {
    o + NodeSize(e) <= |img| && img[o + INODE..o + NodeSize(e)] == PaddedName(e)
  }

  /** The name of each entry stands behind its inode. */
  ghost predicate Named(img: seq<byte>, nodes: seq<Entry>, start: nat) {
    forall k | 0 <= k < |nodes| :: NameAt(img, start + Size(nodes[..k]), nodes[k])
  }

  /** The inode says what the entry says, and its name takes as many words as it needs with the padding. */
  ghost predicate Says(e: Entry)
    reads e`fields
  {
    && e.fields.mode == e.mode && e.fields.uid == e.uid && e.fields.gid == e.gid && e.fields.size == e.size
    && |e.name| <= 4 * e.fields.namelen < |e.name| + 4
  }

  /** The inode of each entry does. */
  ghost predicate Filled(nodes: seq<Entry>)
    reads set x | x in nodes :: x`fields
  {
    forall x | x in nodes :: Says(x)
  }

  /** Copies a name and pads it with zeros. */
  method WriteName(img: array<byte>, at: nat, name: seq<byte>) returns (len: nat)
    requires at + Padded(|name|) <= img.Length
    modifies img
    ensures len == Padded(|name|) && img[at..at + len] == name + Zeros(len - |name|)
    ensures forall k | 0 <= k < img.Length && (k < at || at + len <= k) :: img[k] == old(img[k])
  {
    len := 0;
    while len < |name|
      invariant len <= |name| && img[at..at + len] == name[..len]
      invariant forall k | 0 <= k < img.Length && (k < at || at + len <= k) :: img[k] == old(img[k])
    {
      img[at + len] := name[len];
      assert img[at..at + len + 1] == img[at..at + len] + [name[len]];
      len := len + 1;
    }
    while len % 4 != 0
      invariant |name| <= len <= Padded(|name|) && img[at..at + len] == name + Zeros(len - |name|)
      invariant forall k | 0 <= k < img.Length && (k < at || at + len <= k) :: img[k] == old(img[k])
      decreases Padded(|name|) - len
    {
      img[at + len] := 0;
      assert img[at..at + len + 1] == img[at..at + len] + [0];
      len := len + 1;
    }
  }

  lemma {:induction false} SizeUpTo(nodes: seq<Entry>, k: nat)
    requires k < |nodes|
    ensures Size(nodes[..k]) + NodeSize(nodes[k]) <= Size(nodes)
  {
    hide Size, NodeSize;
    SizeOne(nodes[..k], nodes[k]);
    SizeTwo(nodes[..k + 1], nodes[k + 1..]);
    assert nodes[..k] + [nodes[k]] == nodes[..k + 1] && nodes[..k + 1] + nodes[k + 1..] == nodes;
  }

  ghost predicate SameBelow(img: seq<byte>, img': seq<byte>, end: nat) {
    |img'| == |img| && forall k | 0 <= k < |img| && k < end :: img'[k] == img[k]
  }

  lemma NameStill(img: seq<byte>, img': seq<byte>, o: nat, e: Entry, end: nat)
    requires NameAt(img, o, e) && o + NodeSize(e) <= end && SameBelow(img, img', end)
    ensures NameAt(img', o, e)
  {
    hide NodeSize, PaddedName;
    NodeSizeIs(e);
    assert img'[o + INODE..o + NodeSize(e)] == img[o + INODE..o + NodeSize(e)];
  }

  lemma NamedAt(img: seq<byte>, nodes: seq<Entry>, start: nat, k: nat)
    requires Named(img, nodes, start) && k < |nodes|
    ensures NameAt(img, start + Size(nodes[..k]), nodes[k])
  {
    hide Size, NameAt;
  }

  lemma NamedNext(img: seq<byte>, img': seq<byte>, nodes: seq<Entry>, e: Entry, start: nat, k: nat)
    requires Named(img, nodes, start) && NameAt(img', start + Size(nodes), e)
    requires SameBelow(img, img', start + Size(nodes)) && k <= |nodes|
    ensures NameAt(img', start + Size((nodes + [e])[..k]), (nodes + [e])[k])
  {
    hide *;
    assert (nodes + [e])[..k] == if k < |nodes| then nodes[..k] else nodes;
    if k < |nodes| {
      NamedAt(img, nodes, start, k);
      SizeUpTo(nodes, k);
      NameStill(img, img', start + Size(nodes[..k]), nodes[k], start + Size(nodes));
    }
  }

  /** Writing behind the names leaves them as they are, and adds one. */
  lemma NamedMore(img: seq<byte>, img': seq<byte>, nodes: seq<Entry>, e: Entry, start: nat)
    requires Named(img, nodes, start) && NameAt(img', start + Size(nodes), e)
    requires SameBelow(img, img', start + Size(nodes))
    ensures Named(img', nodes + [e], start)
  {
    hide Size, NameAt, SameBelow;
    forall k | 0 <= k < |nodes + [e]|
      ensures NameAt(img', start + Size((nodes + [e])[..k]), (nodes + [e])[k])
    {
      NamedNext(img, img', nodes, e, start, k);
    }
  }

  /** Writes the inode and the name of an entry. */
  method WriteNode(img: array<byte>, e: Entry, offset: nat, ghost nodes: seq<Entry>, ghost start: nat,
                   ghost pend: seq<Entry?>, ghost last: Entry?)
    returns (o: nat)
    requires e !in nodes && offset == start + Size(nodes) && Laid(nodes, start) && Linked(nodes, pend, last, offset)
    requires Named(img[..], nodes, start) && Filled(nodes) && offset + NodeSize(e) <= img.Length
    requires last != null ==> last.child == e
    modifies img, e`dirOffset, e`fields, e`stored
    ensures o == start + Size(nodes + [e]) && Laid(nodes + [e], start)
    ensures Named(img[..], nodes + [e], start) && Filled(nodes + [e])
    ensures Linked(nodes + [e], if e.child != null then pend + [e] else pend, null, o)
  {
    hide Size, NodeSize, Padded, FineAt, Linked, Zeros, Named;
    ghost var pend' := if e.child != null then pend + [e] else pend;
    forall x | x in nodes
      ensures FineAt(x, x.stored, ChildPlace(x), nodes, pend, last, offset)
    {
      LinkedAt(nodes, pend, last, offset, x);
    }
    ghost var was := img[..];
    NodeSizeIs(e);
    SizeOne(nodes, e);
    e.dirOffset := offset;
    e.stored := 0;
    o := offset + INODE;
    var len := WriteName(img, o, e.name);
    e.fields := Fields(e.mode, e.uid, e.gid, e.size, len / 4);
    o := o + len;
    NamedMore(was, img[..], nodes, e, start);
    LaidOne(nodes, e, start);
    forall x | x in nodes + [e]
      ensures FineAt(x, x.stored, ChildPlace(x), nodes + [e], pend', null, o)
    {
      if x == e {
        FineNew(e, nodes, pend', ChildPlace(e), o);
      } else {
        FineKept(x, e, x.stored, old(ChildPlace(x)), ChildPlace(x), nodes, pend, pend', last, offset, o);
      }
    }
    LinkedAll(nodes + [e], pend', null, o);
  }

  lemma NodeSizeIs(e: Entry)
    ensures NodeSize(e) == INODE + Padded(|e.name|)
  {
  }

  lemma FineNew(e: Entry, nodes: seq<Entry>, pend: seq<Entry?>, place: nat, o: nat)
    requires e.child != null ==> e in pend
    ensures FineAt(e, 0, place, nodes + [e], pend, null, o)
  {
  }

  lemma LaidOne(nodes: seq<Entry>, e: Entry, start: nat)
    requires Laid(nodes, start) && e.dirOffset == start + Size(nodes)
    ensures Laid(nodes + [e], start)
  {
    forall k | 0 <= k < |nodes + [e]|
      ensures (nodes + [e])[k].dirOffset == start + Size((nodes + [e])[..k])
    {
      assert (nodes + [e])[..k] == if k < |nodes| then nodes[..k] else nodes;
    }
  }

  /** What is laid out, what the current directory still has, what it has pushed, and what the stack held before. */
  ghost predicate Plan(total: seq<Entry>, nodes: seq<Entry>, g: Forest, pushed: seq<Forest>, base: seq<Forest>) {
    total == nodes + (Siblings(g) + (InTurn(pushed) + (Subs(g) + Pending(base))))
  }

  lemma PlanStep(total: seq<Entry>, nodes: seq<Entry>, g: Forest, pushed: seq<Forest>, base: seq<Forest>)
    requires g.Node? && Plan(total, nodes, g, pushed, base) && Distinct(total)
    ensures g.e !in nodes
    ensures Plan(total, nodes + [g.e], g.next, if g.child.Node? then pushed + [g.child] else pushed, base)
  {
    hide Pending, InTurn, Distinct;
    var rest := InTurn(pushed) + (Subs(g) + Pending(base));
    assert total == nodes + ([g.e] + Siblings(g.next) + rest);
    NotBefore(total, nodes, g.e, Siblings(g.next) + rest);
    InTurnOne(pushed, g.child);
    var pushed' := if g.child.Node? then pushed + [g.child] else pushed;
    EmitNil();
    assert InTurn(pushed') == InTurn(pushed) + Emit(g.child);
    assert Subs(g) == Emit(g.child) + Subs(g.next);
    PlanSame(nodes, g.e, Siblings(g.next), InTurn(pushed), Emit(g.child), Subs(g.next), Pending(base));
  }

  lemma EmitNil()
    ensures Emit(Nil) == []
  {
  }

  lemma PlanSame<T>(a: seq<T>, x: T, b: seq<T>, c: seq<T>, d: seq<T>, e: seq<T>, f: seq<T>)
    ensures a + (([x] + b) + (c + ((d + e) + f))) == (a + [x]) + (b + ((c + d) + (e + f)))
  {
    Regroup(a, [x], b + (c + ((d + e) + f)));
    Regroup([x], b, c + ((d + e) + f));
    Regroup(d, e, f);
    Regroup(c, d, e + f);
  }

  lemma NotBefore(total: seq<Entry>, nodes: seq<Entry>, e: Entry, rest: seq<Entry>)
    requires total == nodes + ([e] + rest) && Distinct(total)
    ensures e !in nodes
  {
    assert total[|nodes|] == e;
    forall k | 0 <= k < |nodes|
      ensures nodes[k] != e
    {
      assert total[k] == nodes[k];
    }
  }

  /** The stack's entries are the directories whose lists of children are fs. */
  ghost predicate Stacked(st: seq<Entry?>, fs: seq<Forest>, total: seq<Entry>) {
    |st| == |fs| && forall k | 0 <= k < |fs| ::
      st[k] != null && st[k] in total && fs[k].Node? && st[k].child != null && Links(st[k].child, fs[k])
  }

  /** Pushes a directory, doubling the stack when it is full. */
  method Push(stack: array<Entry?>, n: nat, e: Entry) returns (s: array<Entry?>)
    requires n <= stack.Length && stack.Length > 0
    modifies stack
    ensures n < s.Length && s[..n + 1] == old(stack[..n]) + [e]
    ensures s == stack || fresh(s)
  {
    s := stack;
    if n >= stack.Length {
      s := new Entry?[2 * stack.Length](_ => null);
      var i := 0;
      while i < n
        invariant i <= n && s[..i] == stack[..i] && stack[..n] == old(stack[..n])
      {
        s[i] := stack[i];
        i := i + 1;
      }
    }
    s[n] := e;
  }

  /** The in-place reversal of the entries pushed for one directory. */
  method ReverseSegment(stack: array<Entry?>, from: nat, to: nat)
    requires from <= to <= stack.Length
    modifies stack
    ensures forall k | 0 <= k < stack.Length && (k < from || to <= k) :: stack[k] == old(stack[k])
    ensures forall k | from <= k < to :: stack[k] == old(stack[from + to - 1 - k])
  {
    var lo, hi := from, to - 1;
    while lo < hi
      invariant from <= lo <= hi + 2 && hi < to && lo + hi == from + to - 1
      invariant forall k | 0 <= k < stack.Length && (k < lo || hi < k) && from <= k < to ::
        stack[k] == old(stack[from + to - 1 - k])
      invariant forall k | 0 <= k < stack.Length && (lo <= k <= hi || k < from || to <= k) :: stack[k] == old(stack[k])
      decreases hi - lo
    {
      stack[lo], stack[hi] := stack[hi], stack[lo];
      lo, hi := lo + 1, hi - 1;
    }
  }

  /** One directory: writes its entries and pushes those that have children of their own. */
  method WriteSiblings(first: Entry?, ghost f: Forest, offset0: nat, ghost nodes0: seq<Entry>, ghost start: nat,
                       ghost total: seq<Entry>,
                       stack0: array<Entry?>, n0: nat, ghost base: seq<Forest>, ghost last0: Entry?, img: array<byte>)
    returns (offset: nat, ghost nodes: seq<Entry>, stack: array<Entry?>, n: nat, ghost pushed: seq<Forest>)
    requires Links(first, f) && f.Node? && Plan(total, nodes0, f, [], base) && Distinct(total)
    requires n0 <= stack0.Length && stack0.Length > 0 && Stacked(stack0[..n0], base, total)
    requires offset0 == start + Size(nodes0) && Laid(nodes0, start) && Linked(nodes0, stack0[..n0], last0, offset0)
    requires last0 != null ==> last0.child == first
    requires Named(img[..], nodes0, start) && Filled(nodes0) && start + Size(total) <= img.Length
    modifies img, stack0
    modifies set x | x in total :: x`dirOffset, set x | x in total :: x`fields, set x | x in total :: x`stored
    ensures Plan(total, nodes, Nil, pushed, base) && |nodes| > |nodes0|
    ensures n <= stack.Length && stack.Length > 0 && (stack == stack0 || fresh(stack))
    ensures n == n0 + |pushed| && Stacked(stack[..n], base + pushed, total)
    ensures offset == start + Size(nodes) && Laid(nodes, start) && Linked(nodes, stack[..n], null, offset)
    ensures Named(img[..], nodes, start) && Filled(nodes)
  {
    hide Plan, Pending, InTurn, Laid, Linked, Size, NodeSize, Distinct, Links, Named;
    var entry := first;
    ghost var g := f;
    ghost var last := last0;
    offset, nodes, stack, n, pushed := offset0, nodes0, stack0, n0, [];
    assert base + [] == base;
    while entry != null
      invariant Links(entry, g) && Plan(total, nodes, g, pushed, base) && (g == f || |nodes| > |nodes0|)
      invariant |nodes| >= |nodes0|
      invariant n <= stack.Length && stack.Length > 0 && (stack == stack0 || fresh(stack))
      invariant n == n0 + |pushed| && Stacked(stack[..n], base + pushed, total)
      invariant offset == start + Size(nodes) && Laid(nodes, start) && Linked(nodes, stack[..n], last, offset)
      invariant last != null ==> last.child == entry && g == f
      invariant Named(img[..], nodes, start) && Filled(nodes)
      decreases g
    {
      LinksNode(entry, g);
      PlanStep(total, nodes, g, pushed, base);
      PlanHas(total, nodes, g, pushed, base);
      PlanRoom(total, nodes, g, pushed, base);
      offset := WriteNode(img, entry, offset, nodes, start, stack[..n], last);
      nodes := nodes + [entry];
      last := null;
      if entry.child != null {
        StackedOne(stack[..n], base + pushed, total, entry, g.child);
        stack := Push(stack, n, entry);
        n := n + 1;
        assert (base + pushed) + [g.child] == base + (pushed + [g.child]);
        pushed := pushed + [g.child];
      }
      entry := entry.next;
      g := g.next;
    }
    LinksNull(g);
  }

  lemma LinksNode(e: Entry, g: Forest)
    requires Links(e, g)
    ensures g.Node? && g.e == e && Links(e.child, g.child) && Links(e.next, g.next)
    ensures e.child != null <==> g.child.Node?
  {
  }

  lemma LinksNull(g: Forest)
    requires Links(null, g)
    ensures g == Nil
  {
  }

  lemma PlanHas(total: seq<Entry>, nodes: seq<Entry>, g: Forest, pushed: seq<Forest>, base: seq<Forest>)
    requires g.Node? && Plan(total, nodes, g, pushed, base)
    ensures g.e in total
  {
    assert total[|nodes|] == g.e;
  }

  /** There is room for the next entry. */
  lemma PlanRoom(total: seq<Entry>, nodes: seq<Entry>, g: Forest, pushed: seq<Forest>, base: seq<Forest>)
    requires g.Node? && Plan(total, nodes, g, pushed, base)
    ensures Size(nodes) + NodeSize(g.e) <= Size(total)
  {
    hide Size, NodeSize;
    var k := |nodes|;
    assert total[..k] == nodes && total[k] == g.e;
    SizeUpTo(total, k);
  }

  lemma StackedOne(st: seq<Entry?>, fs: seq<Forest>, total: seq<Entry>, e: Entry, c: Forest)
    requires Stacked(st, fs, total) && e in total && e.child != null && c.Node? && Links(e.child, c)
    ensures Stacked(st + [e], fs + [c], total)
  {
    hide Links;
  }

  /** set_data_offset: the place is recorded in words, unless it is not a multiple of four or too far. */
  method SetDataOffset(e: Entry, offset: nat) returns (ok: bool)
    modifies e`stored
    ensures ok <==> offset % 4 == 0 && offset < 0x1000_0000
    ensures if ok then 4 * e.stored == offset && e.stored < 0x400_0000 else e.stored == old(e.stored)
  {
    if offset % 4 != 0 || offset >= OFFSET_LIMIT {
      return false;
    }
    e.stored := offset / 4;
    ok := true;
  }

  /** Takes the directory on top of the stack off and makes it point to where its entries will lie. */
  method TakeDirectory(e: Entry, offset: nat, ghost nodes: seq<Entry>, ghost start: nat, ghost pend: seq<Entry?>)
    returns (ok: bool)
    requires e.child != null && e.child !in nodes && Laid(nodes, start) && Linked(nodes, pend + [e], null, offset)
    modifies e`stored
    ensures ok ==> Laid(nodes, start) && Linked(nodes, pend, e, offset)
    ensures !ok ==> offset % 4 != 0 || offset >= OFFSET_LIMIT
  {
    hide Size;
    ok := SetDataOffset(e, offset);
  }

  lemma StartPlan(f: Forest, start: nat)
    ensures Plan(Emit(f), [], f, [], []) && Laid([], start) && Linked([], [], null, start) && Size([]) == 0
  {
    assert [] + (Siblings(f) + ([] + (Subs(f) + []))) == Siblings(f) + Subs(f);
  }

  /** The stack after the reversal. */
  lemma ReversedStack(st: seq<Entry?>, st': seq<Entry?>, fs: seq<Forest>, pushed: seq<Forest>, from: nat,
                      total: seq<Entry>)
    requires Stacked(st, fs + pushed, total) && |st'| == |st| && from == |fs|
    requires forall k | 0 <= k < from :: st'[k] == st[k]
    requires forall k | from <= k < |st| :: st'[k] == st[from + |st| - 1 - k]
    ensures Stacked(st', fs + Reversed(pushed), total)
    ensures forall x | x in st :: x in st'
  {
    hide Links;
    ReversedAt(pushed);
    var gs := fs + Reversed(pushed);
    forall k | 0 <= k < |gs|
      ensures st'[k] != null && st'[k] in total && gs[k].Node? && st'[k].child != null && Links(st'[k].child, gs[k])
    {
      var j := if k < from then k else from + |st| - 1 - k;
      assert gs[k] == (fs + pushed)[j];
    }
    forall k | 0 <= k < |st|
      ensures st[k] in st'
    {
      assert st[k] == st'[if k < from then k else from + |st| - 1 - k];
    }
  }

  lemma LinkedSame(nodes: seq<Entry>, pend: seq<Entry?>, pend': seq<Entry?>, here: nat)
    requires Linked(nodes, pend, null, here) && forall x | x in pend :: x in pend'
    ensures Linked(nodes, pend', null, here)
  {
    forall x | x in nodes
      ensures Fine(x, nodes, pend', null, here)
    {
      assert Fine(x, nodes, pend, null, here);
    }
  }

  /** After a directory is done, the rest is what the stack holds. */
  lemma PlanNext(total: seq<Entry>, nodes: seq<Entry>, pushed: seq<Forest>, base: seq<Forest>)
    requires Plan(total, nodes, Nil, pushed, base)
    ensures total == nodes + Pending(base + Reversed(pushed))
  {
    hide Pending, InTurn;
    PendingReversed(base, pushed);
    assert [] + (InTurn(pushed) + ([] + Pending(base))) == InTurn(pushed) + Pending(base);
  }

  /** The directory on top is next. */
  lemma PlanTop(total: seq<Entry>, nodes: seq<Entry>, fs: seq<Forest>)
    requires fs != [] && fs[|fs| - 1].Node? && total == nodes + Pending(fs) && Distinct(total)
    ensures Plan(total, nodes, fs[|fs| - 1], [], fs[..|fs| - 1])
    ensures fs[|fs| - 1].e !in nodes
  {
    hide *;
    var g, base := fs[|fs| - 1], fs[..|fs| - 1];
    assert fs == base + [g];
    PendingOne(base, g);
    EmitIs(g);
    PlanOf(nodes, Siblings(g), Subs(g), Pending(base));
    PlanIs(total, nodes, g, base);
    SiblingsOne(g);
    HeadFirst(nodes, g.e, Siblings(g.next), Subs(g), Pending(base));
    NotBefore(total, nodes, g.e, Siblings(g.next) + Subs(g) + Pending(base));
  }

  lemma EmitIs(g: Forest)
    ensures Emit(g) == Siblings(g) + Subs(g)
  {
  }

  lemma PlanIs(total: seq<Entry>, nodes: seq<Entry>, g: Forest, base: seq<Forest>)
    requires total == nodes + (Siblings(g) + ([] + (Subs(g) + Pending(base))))
    ensures Plan(total, nodes, g, [], base)
  {
    hide Siblings, Subs, Pending;
  }

  lemma HeadFirst<T>(a: seq<T>, x: T, b: seq<T>, c: seq<T>, d: seq<T>)
    ensures a + ((([x] + b) + c) + d) == a + ([x] + (b + c + d))
  {
    Regroup([x], b, c);
    Regroup([x], b + c, d);
  }

  lemma SiblingsOne(g: Forest)
    requires g.Node?
    ensures Siblings(g) == [g.e] + Siblings(g.next)
  {
  }

  lemma PlanOf<T>(a: seq<T>, b: seq<T>, c: seq<T>, d: seq<T>)
    ensures a + ((b + c) + d) == a + (b + ([] + (c + d)))
  {
    Regroup(b, c, d);
  }

  lemma PlanParts(total: seq<Entry>, nodes: seq<Entry>, g: Forest, pushed: seq<Forest>, base: seq<Forest>)
    requires Plan(total, nodes, g, pushed, base)
    ensures |nodes| <= |total| && Size(nodes) <= Size(total)
  {
    SizeTwo(nodes, Siblings(g) + (InTurn(pushed) + (Subs(g) + Pending(base))));
  }

  lemma StackTop(st: seq<Entry?>, fs: seq<Forest>, total: seq<Entry>)
    requires Stacked(st, fs, total) && st != []
    ensures |st| == |fs| && st[|st| - 1] != null && st[|st| - 1] in total && fs[|fs| - 1].Node?
    ensures st[|st| - 1].child != null
    ensures Links(st[|st| - 1].child, fs[|fs| - 1]) && st[|st| - 1].child == fs[|fs| - 1].e
    ensures Stacked(st[..|st| - 1], fs[..|fs| - 1], total)
  {
  }

  lemma PendingNone(total: seq<Entry>, nodes: seq<Entry>)
    requires total == nodes + Pending([])
    ensures total == nodes
  {
  }

  lemma AllPoint(nodes: seq<Entry>, here: nat)
    requires Linked(nodes, [], null, here)
    ensures forall x | x in nodes :: (x.child != null ==> x.child in nodes) && Points(x)
  {
    forall x | x in nodes
      ensures (x.child != null ==> x.child in nodes) && Points(x)
    {
      assert Fine(x, nodes, [], null, here);
    }
  }

  /**
   * write_directory_structure: the inodes are laid out in the recursive order, each entry once
   * and followed by its name, and every directory that is not empty points to its first entry.
   * It fails only when the image is too large, or does not start at a multiple of four.
   */
  method WriteDirectoryStructure(root: Entry?, ghost f: Forest, img: array<byte>, offset0: nat)
    returns (ok: bool, offset: nat, ghost nodes: seq<Entry>)
    requires Links(root, f) && Distinct(Pre(f)) && offset0 + Size(Emit(f)) <= img.Length
    modifies img, set x | x in Emit(f) :: x`dirOffset, set x | x in Emit(f) :: x`fields
    modifies set x | x in Emit(f) :: x`stored
    ensures ok ==> nodes == Emit(f) && offset == offset0 + Size(nodes) && Laid(nodes, offset0)
    ensures ok ==> forall x | x in nodes :: (x.child != null ==> x.child in nodes) && Points(x)
    ensures ok ==> Named(img[..], nodes, offset0) && Filled(nodes)
    ensures !ok ==> offset0 % 4 != 0 || offset0 + Size(Emit(f)) >= OFFSET_LIMIT
  {
    hide Plan, Pending, InTurn, Laid, Linked, Size, Distinct, Links, Emit, Points, Stacked, Reversed, Named, Filled;
    EmitDistinct(f);
    StartPlan(f, offset0);
    offset, nodes, ok := offset0, [], true;
    if root == null {
      LinksNull(f);
      EmitNil();
      NoneNamed(img[..], offset0);
      AllPoint(nodes, offset);
      return;
    }
    LinksNode(root, f);
    ok, offset, nodes := WriteAll(root, f, img, offset0, Emit(f));
  }

  lemma NoneNamed(img: seq<byte>, start: nat)
    ensures Named(img, [], start) && Filled([])
  {
  }

  method WriteAll(root: Entry, ghost f: Forest, img: array<byte>, offset0: nat, ghost total: seq<Entry>)
    returns (ok: bool, offset: nat, ghost nodes: seq<Entry>)
    requires Links(root, f) && f.Node? && Distinct(total) && Plan(total, [], f, [], [])
    requires offset0 + Size(total) <= img.Length
    modifies img, set x | x in total :: x`dirOffset, set x | x in total :: x`fields, set x | x in total :: x`stored
    ensures ok ==> nodes == total && offset == offset0 + Size(nodes) && Laid(nodes, offset0)
    ensures ok ==> forall x | x in nodes :: (x.child != null ==> x.child in nodes) && Points(x)
    ensures ok ==> Named(img[..], nodes, offset0) && Filled(nodes)
    ensures !ok ==> offset0 % 4 != 0 || offset0 + Size(total) >= OFFSET_LIMIT
  {
    hide Plan, Pending, InTurn, Laid, Linked, Size, Distinct, Links, Emit, Points, Stacked, Reversed, Named, Filled;
    var stack := new Entry?[64](_ => null);
    var n, entry: Entry := 0, root;
    ghost var g, fs, last: Entry? := f, [], null;
    offset, nodes, ok := offset0, [], true;
    StartPlan(f, offset0);
    StackedNone(stack[..0], total);
    NoneNamed(img[..], offset0);
    while true
      invariant Links(entry, g) && g.Node? && Plan(total, nodes, g, [], fs)
      invariant n <= stack.Length && stack.Length > 0 && fresh(stack) && Stacked(stack[..n], fs, total)
      invariant offset == offset0 + Size(nodes) && Laid(nodes, offset0) && Linked(nodes, stack[..n], last, offset)
      invariant last != null ==> last.child == entry
      invariant Named(img[..], nodes, offset0) && Filled(nodes)
      decreases |total| - |nodes|
    {
      PlanParts(total, nodes, g, [], fs);
      offset, nodes, stack, n, fs := WriteDirectory(entry, g, offset, nodes, offset0, total, stack, n, fs, last, img);
      if n == 0 {
        StackedSizes(stack[..n], fs, total);
        PendingNone(total, nodes);
        AllPoint(nodes, offset);
        break;
      }
      StackTop(stack[..n], fs, total);
      PlanTop(total, nodes, fs);
      n := n - 1;
      var e := stack[n];
      assert stack[..n + 1] == stack[..n] + [e] && stack[..n + 1][..n] == stack[..n];
      g, fs := fs[|fs| - 1], fs[..|fs| - 1];
      PlanParts(total, nodes, g, [], fs);
      ok := TakeDirectory(e, offset, nodes, offset0, stack[..n]);
      if !ok {
        SizeFour(nodes);
        return;
      }
      last, entry := e, e.child;
    }
  }

  /** One directory with the reversal of what it pushed. */
  method WriteDirectory(first: Entry, ghost f: Forest, offset0: nat, ghost nodes0: seq<Entry>, ghost start: nat,
                        ghost total: seq<Entry>,
                        stack0: array<Entry?>, n0: nat, ghost base: seq<Forest>, ghost last: Entry?, img: array<byte>)
    returns (offset: nat, ghost nodes: seq<Entry>, stack: array<Entry?>, n: nat, ghost fs: seq<Forest>)
    requires Links(first, f) && f.Node? && Plan(total, nodes0, f, [], base) && Distinct(total)
    requires n0 <= stack0.Length && stack0.Length > 0 && Stacked(stack0[..n0], base, total)
    requires offset0 == start + Size(nodes0) && Laid(nodes0, start) && Linked(nodes0, stack0[..n0], last, offset0)
    requires last != null ==> last.child == first
    requires Named(img[..], nodes0, start) && Filled(nodes0) && start + Size(total) <= img.Length
    modifies img, stack0
    modifies set x | x in total :: x`dirOffset, set x | x in total :: x`fields, set x | x in total :: x`stored
    ensures |nodes| > |nodes0| && total == nodes + Pending(fs)
    ensures n <= stack.Length && stack.Length > 0 && (stack == stack0 || fresh(stack)) && Stacked(stack[..n], fs, total)
    ensures offset == start + Size(nodes) && Laid(nodes, start) && Linked(nodes, stack[..n], null, offset)
    ensures Named(img[..], nodes, start) && Filled(nodes)
  {
    hide Plan, Pending, InTurn, Laid, Linked, Size, Distinct, Links, Emit, Points, Stacked, Reversed, Named, Filled;
    ghost var pushed;
    offset, nodes, stack, n, pushed := WriteSiblings(first, f, offset0, nodes0, start, total, stack0, n0, base, last,
                                                     img);
    ghost var st := stack[..n];
    ReverseSegment(stack, n0, n);
    StackedSizes(st, base + pushed, total);
    StackedSizes(old(stack0[..n0]), base, total);
    ReversedStack(st, stack[..n], base, pushed, n0, total);
    LinkedSame(nodes, st, stack[..n], offset);
    PlanNext(total, nodes, pushed, base);
    fs := base + Reversed(pushed);
  }

  lemma StackedSizes(st: seq<Entry?>, fs: seq<Forest>, total: seq<Entry>)
    requires Stacked(st, fs, total)
    ensures |st| == |fs|
  {
  }

  lemma StackedNone(st: seq<Entry?>, total: seq<Entry>)
    requires st == []
    ensures Stacked(st, [], total)
  {
  }

  lemma SizeFour(s: seq<Entry>)
    ensures Size(s) % 4 == 0
  {
  }
}
