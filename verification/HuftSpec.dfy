/**
 * What the linked decoding tables of inftrees.c must contain: for each table the prefix it serves, and for
 * each slot either the code that owns the slot or a link to the table that serves the slot's own prefix.
 */
module HuftSpec {
  import opened Arith
  import opened CanonicalCode

  /** A table entry: operation, bits to drop, and base value or offset. */
  datatype Huft = Huft(exop: nat, bits: nat, base: nat)

  /** What huft_build works from once the lengths are counted and the symbols sorted. */
  datatype Job = Job(
    c: Counts,      // codes of each length, filled up to a complete set
    g: nat,         // longest length
    l: nat,         // bits looked up at once
    v: seq<nat>,    // the symbols, shortest code first
    s: nat,         // symbols below s stand for themselves
    d: seq<nat>,    // base values of the others
    e: seq<nat>)    // extra bits of the others
  {
    ghost predicate Valid() {
      && Complete(c, g) && 1 <= l <= g
      && Pos(c, l) > 0                       // l is at least the shortest length
      && 0 < |v| <= Off(c, 16)
      && forall t | 0 <= t < |v| && v[t] >= s :: v[t] - s < |d| && v[t] - s < |e|
    }
  }

  /** How many codes are shorter than k. */
  function Off(c: Counts, k: nat): nat
    requires k <= 16
  {
    if k <= 1 then 0 else Off(c, k - 1) + c[k - 1]
  }

  lemma {:induction false} OffMono(c: Counts, k: nat, m: nat)
    requires 1 <= k <= m <= 16
    ensures Off(c, k) <= Off(c, m)
    decreases m - k
  {
    if k < m {
      OffMono(c, k, m - 1);
    }
  }

  lemma OffStep(c: Counts, k: nat)
    requires 1 <= k <= 15
    ensures Off(c, k + 1) == Off(c, k) + c[k]
  {
  }

  /** A table: the number of bits consumed before it, its own bits, and the first string it serves. */
  datatype Tab = Tab(w: nat, j: nat, lo: nat) {
    predicate Fits() { w + j <= 15 }

    /** The first string that the slot serves; the slot's index is read low bit first. */
    function Slot(idx: nat): nat
      requires Fits()
    {
      lo + Shl(Rev(idx, j), 15 - w - j)
    }

    /** The table as far as it can be filled: only the first 2^l slots of a wider one are ever reached by a link. */
    function Part(l: nat): (t: Tab)
      ensures t.w == w && t.lo == lo && t.j <= j && t.j <= l && (j <= l ==> t == this) && (Fits() ==> t.Fits())
    {
      if l < j then Tab(w, l, lo) else this
    }

    /** One past the last string served. */
    function Hi(): nat
      requires Fits()
    {
      lo + Pow2(15 - w)
    }
  }

  /** The inner loop that sizes a table, entered with f patterns of length w + j - 1 left over. */
  function Grow(c: Counts, z: nat, w: nat, j: nat, f: nat): (r: nat)
    requires w + z <= 15
    ensures j <= z ==> j <= r <= z
    decreases z - j
  {
    if j >= z then j
    else if 2 * f <= c[w + j] then j
    else Grow(c, z, w, j + 1, 2 * f - c[w + j])
  }

  /** The size in bits of the table made after w bits for the first of n codes of length k left. */
  function TableBits(c: Counts, g: nat, l: nat, w: nat, k: nat, n: nat): (r: nat)
    requires w < k <= g <= 15
    ensures k - w <= r && w + r <= g
    ensures k - w <= l ==> r <= l
  {
    var z := if g - w > l then l else g - w;
    if Pow2(k - w) > n && k - w < z then Grow(c, z, w, k - w + 1, Pow2(k - w) - n) else k - w
  }

  function LeafExop(job: Job, t: nat): nat
    requires job.Valid()
  {
    if t >= |job.v| then 192
    else if job.v[t] < job.s then (if job.v[t] < 256 then 0 else 96)
    else job.e[job.v[t] - job.s] + 80
  }

  function LeafBase(job: Job, t: nat): nat
    requires job.Valid() && t < |job.v|
  {
    if job.v[t] < job.s then job.v[t] else job.d[job.v[t] - job.s]
  }

  type Tabs = map<nat, Tab>

  /** The index in job.v of the code that owns the string x. */
  function IndexAt(c: Counts, x: nat): int {
    Off(c, LenAt(c, x)) + RankAt(c, x)
  }

  /** The size of the table for the strings from x on, after w bits. */
  function BitsAt(job: Job, w: nat, x: nat): nat
    requires job.g <= 15
  {
    var k := LenAt(job.c, x);
    if w < k <= job.g && RankAt(job.c, x) <= job.c[k]
    then TableBits(job.c, job.g, job.l, w, k, job.c[k] - RankAt(job.c, x)) else 0
  }

  ghost predicate LeafOK(job: Job, t: Tab, x: nat, r: Huft)
    requires job.Valid()
  {
    var k := LenAt(job.c, x);
    var i := IndexAt(job.c, x);
    && t.w < k <= t.w + t.j && r.bits == k - t.w
    && i >= 0 && r.exop == LeafExop(job, i)
    && (i < |job.v| ==> r.base == LeafBase(job, i))
    && (i >= |job.v| && job.g <= job.l ==> r.base == LeafBase(job, |job.v| - 1))
  }

  ghost predicate LinkOK(job: Job, tabs: Tabs, a: nat, t: Tab, x: nat, r: Huft)
    requires job.g <= 15
  {
    && t.w + t.j < LenAt(job.c, x)
    && t.j == job.l && r.bits == job.l
    && 1 <= r.exop == BitsAt(job, t.w + job.l, x)
    && a + r.base in tabs
    && tabs[a + r.base] == Tab(t.w + job.l, r.exop, x)
  }

  /** The slot idx of the table at b says what it must. */
  ghost predicate SlotOK(job: Job, hp: seq<Huft>, tabs: Tabs, b: nat, idx: nat)
    requires job.Valid() && b in tabs && tabs[b].Fits() && b + idx < |hp|
  {
    var t := tabs[b].Part(job.l);
    var x := t.Slot(idx);
    || LeafOK(job, t, x, hp[b + idx])
    || LinkOK(job, tabs, b + idx, t, x, hp[b + idx])
  }

  /** A table may begin after w bits. */
  predicate Level(l: nat, w: nat)
    requires l > 0
  {
    w == 0 || (w >= l && Level(l, w - l))
  }

  /**
   * No table is asked for more than l bits at once: whenever codes longer than w +
   * l exist, those of length at most w + l reach into the last prefix of w bits.
   */
  ghost predicate NoJump(job: Job) {
    job.Valid() && forall w: nat {:trigger Level(job.l, w)} | Level(job.l, w) && w + job.l < job.g ::
      Pos(job.c, w + job.l) + Pow2(15 - w) > Pow2(15)
  }

  /** The table space taken for the code at s by the tables after w bits and deeper. */
  function SizeFrom(job: Job, s: nat, w: nat): nat
    requires 0 < job.l && job.g <= 15
    decreases if w <= 15 then 15 - w else 0
  {
    if w >= LenAt(job.c, s) then 0
    else (if Low(s, 15 - w) == 0 then Pow2(BitsAt(job, w, s)) else 0) + SizeFrom(job, s, w + job.l)
  }

  /** Where the code of length k and rank r begins. */
  function Start(c: Counts, k: nat, r: nat): nat
    requires k <= 15
  {
    Shl(NextCode(c, k) + r, 15 - k)
  }

  /** The table space taken for all codes before that of length k and rank r. */
  function Used(job: Job, k: nat, r: nat): nat
    requires 0 < job.l && job.g <= 15 && k <= 15
    decreases k, r
  {
    if r > 0 then Used(job, k, r - 1) + SizeFrom(job, Start(job.c, k, r - 1), 0)
    else if k <= 1 then 0
    else Used(job, k - 1, job.c[k - 1])
  }

  /** The table space taken in all. */
  function TotalUsed(job: Job): nat
    requires job.Valid()
  {
    Used(job, job.g, job.c[job.g])
  }
}
