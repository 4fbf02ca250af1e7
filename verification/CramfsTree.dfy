/** The entry tree of mkcramfs and the order in which a directory tree is laid out. */
module CramfsTree {
  import opened Stream
  import opened InflateTrees

  /** The fields of an inode besides its offset; namelen counts words of four bytes. */
  datatype Fields = Fields(mode: nat, uid: nat, gid: nat, size: nat, namelen: nat)

  /** struct entry, as parse_directory leaves it; data is what a regular file or a symbolic link holds. */
  class Entry {
    const name: seq<byte>
    const mode: nat
    const uid: nat
    const gid: nat
    const size: nat
    const data: Option<seq<byte>>
    const child: Entry?          // first entry of a directory that is not empty
    const next: Entry?           // next entry of the same directory
    var same: Entry?             // an earlier entry with the same data
    var offset: nat              // where the data lies in the image
    var dirOffset: nat           // where the inode lies in the image
    var fields: Fields           // that inode, but for ...
    var stored: nat              // ... its offset field, in words of four bytes

    constructor (name: seq<byte>, mode: nat, uid: nat, gid: nat, size: nat, data: Option<seq<byte>>, child: Entry?,
                 next: Entry?)
      ensures this.name == name && this.mode == mode && this.uid == uid && this.gid == gid
      ensures this.size == size && this.data == data && this.child == child && this.next == next
      ensures same == null && offset == dirOffset == stored == 0
    {
      this.name, this.mode, this.uid, this.gid := name, mode, uid, gid;
      this.size, this.data, this.child, this.next := size, data, child, next;
      same, offset, dirOffset, stored, fields := null, 0, 0, 0, Fields(0, 0, 0, 0, 0);
    }
  }

  /** A list of siblings, each with the list of its children. */
  datatype Forest = Nil | Node(e: Entry, child: Forest, next: Forest)

  /** The pointers from e on make up the list f. */
  predicate Links(e: Entry?, f: Forest) {
    match f
    case Nil => e == null
    case Node(x, c, n) => e == x && Links(x.child, c) && Links(x.next, n)
  }

  /** The order of the recursive functions: an entry, then its children, then its siblings. */
  function Pre(f: Forest): seq<Entry> {
    match f
    case Nil => []
    case Node(e, c, n) => [e] + Pre(c) + Pre(n)
  }

  function Siblings(f: Forest): seq<Entry> {
    match f
    case Nil => []
    case Node(e, _, n) => [e] + Siblings(n)
  }

  /** The layout order: all siblings, then each of their subdirectories in turn. */
  function Emit(f: Forest): seq<Entry>
    decreases f, 1
  {
    Siblings(f) + Subs(f)
  }

  function Subs(f: Forest): seq<Entry>
    decreases f, 0
  {
    match f
    case Nil => []
    case Node(_, c, n) => Emit(c) + Subs(n)
  }

  /** Every entry is laid out once. */
  lemma {:induction false} EmitAll(f: Forest)
    ensures multiset(Siblings(f)) + multiset(Subs(f)) == multiset(Pre(f))
    ensures multiset(Emit(f)) == multiset(Pre(f))
    decreases f
  {
    match f
    case Nil =>
    case Node(e, c, n) =>
      EmitAll(c);
      EmitAll(n);
  }

  /** The bytes of an inode: the fixed part and the name padded to a multiple of four. */
  const INODE: nat := 12

  function Padded(n: nat): (r: nat)
    ensures n <= r < n + 4 && r % 4 == 0
  {
    if n % 4 == 0 then n else n + 4 - n % 4
  }

  function NodeSize(e: Entry): (r: nat)
    ensures r % 4 == 0 && 12 + |e.name| <= r < 16 + |e.name|
  {
    INODE + Padded(|e.name|)
  }

  function Size(s: seq<Entry>): (r: nat)
    ensures r % 4 == 0
  {
    if s == [] then 0 else Size(s[..|s| - 1]) + NodeSize(s[|s| - 1])
  }

  lemma SizeOne(s: seq<Entry>, e: Entry)
    ensures Size(s + [e]) == Size(s) + NodeSize(e)
  {
    assert (s + [e])[..|s|] == s;
  }

  lemma {:induction false} SizeTwo(s: seq<Entry>, t: seq<Entry>)
    ensures Size(s + t) == Size(s) + Size(t)
    decreases |t|
  {
    if t == [] {
      assert s + t == s;
    } else {
      SizeTwo(s, t[..|t| - 1]);
      assert (s + t)[..|s + t| - 1] == s + t[..|t| - 1];
    }
  }

  /** No entry twice. */
  predicate Distinct(s: seq<Entry>) { forall i, j | 0 <= i < j < |s| :: s[i] != s[j] }

  lemma DistinctCounts(s: seq<Entry>)
    ensures Distinct(s) <==> forall x | x in multiset(s) :: multiset(s)[x] == 1
  {
    if Distinct(s) {
      DistinctOnce(s);
    }
    if forall x | x in multiset(s) :: multiset(s)[x] == 1 {
      OnceDistinct(s);
    }
  }

  lemma {:induction false} DistinctOnce(s: seq<Entry>)
    requires Distinct(s)
    ensures forall x | x in multiset(s) :: multiset(s)[x] == 1
    decreases |s|
  {
    if s != [] {
      var t := s[..|s| - 1];
      DistinctOnce(t);
      assert s == t + [s[|s| - 1]];
      assert s[|s| - 1] !in t;
    }
  }

  lemma {:induction false} OnceDistinct(s: seq<Entry>)
    requires forall x | x in multiset(s) :: multiset(s)[x] == 1
    ensures Distinct(s)
    decreases |s|
  {
    if s != [] {
      var t := s[..|s| - 1];
      var y := s[|s| - 1];
      assert s == t + [y];
      assert multiset(s) == multiset(t) + multiset{y};
      forall x | x in multiset(t)
        ensures multiset(t)[x] == 1
      {
        assert x in multiset(s);
      }
      OnceDistinct(t);
      assert multiset(s)[y] == 1;
      assert y !in multiset(t);
    }
  }

  lemma EmitDistinct(f: Forest)
    requires Distinct(Pre(f))
    ensures Distinct(Emit(f))
  {
    EmitAll(f);
    DistinctCounts(Pre(f));
    DistinctCounts(Emit(f));
  }

  /** What parse_directory adds up for a directory: the size that its inode gives. */
  function DirectorySize(f: Forest): nat {
    match f
    case Nil => 0
    case Node(e, _, n) => NodeSize(e) + DirectorySize(n)
  }

  lemma {:induction false} DirectorySizeIs(f: Forest)
    ensures DirectorySize(f) == Size(Siblings(f))
  {
    match f
    case Nil =>
    case Node(e, c, n) =>
      DirectorySizeIs(n);
      SizeTwo([e], Siblings(n));
      SizeOne([], e);
      assert [] + [e] == [e];
  }

  /** Is c the list of children of the entry e somewhere in the tree? */
  predicate Within(f: Forest, e: Entry, c: Forest) {
    f.Node? && ((f.e == e && f.child == c) || Within(f.child, e, c) || Within(f.next, e, c))
  }

  /** The entries of every directory are laid out together, taking the bytes that its inode gives as its size. */
  lemma {:induction false} Together(f: Forest, e: Entry, c: Forest) returns (k: nat)
    requires Within(f, e, c)
    ensures k + |Siblings(c)| <= |Subs(f)| && Subs(f)[k..k + |Siblings(c)|] == Siblings(c)
    ensures Size(Subs(f)[k..k + |Siblings(c)|]) == DirectorySize(c)
    decreases f
  {
    hide Siblings, Subs, Emit, Size, DirectorySize;
    DirectorySizeIs(c);
    var n := |Siblings(c)|;
    SubsNode(f);
    if f.e == e && f.child == c {
      k := 0;
      Slice([], Siblings(c), Subs(c) + Subs(f.next), 0, n);
      assert Subs(f) == [] + (Siblings(c) + (Subs(c) + Subs(f.next)));
    } else if Within(f.child, e, c) {
      var j := Together(f.child, e, c);
      k := |Siblings(f.child)| + j;
      Slice(Siblings(f.child), Subs(f.child), Subs(f.next), j, n);
    } else {
      var j := Together(f.next, e, c);
      k := |Siblings(f.child) + Subs(f.child)| + j;
      Slice(Siblings(f.child) + Subs(f.child), Subs(f.next), [], j, n);
      assert Subs(f) == (Siblings(f.child) + Subs(f.child)) + (Subs(f.next) + []);
    }
  }

  lemma SubsNode(f: Forest)
    requires f.Node?
    ensures Subs(f) == Siblings(f.child) + (Subs(f.child) + Subs(f.next))
  {
    assert (Siblings(f.child) + Subs(f.child)) + Subs(f.next) == Siblings(f.child) + (Subs(f.child) + Subs(f.next));
  }

  lemma Slice<T>(a: seq<T>, b: seq<T>, d: seq<T>, j: nat, n: nat)
    requires j + n <= |b|
    ensures (a + (b + d))[|a| + j..|a| + j + n] == b[j..j + n]
  {
  }
}
