/** The output side of inflate: the circular window of infutil.h and inflate_flush of infutil.c. */
module OutputWindow {
  import opened Stream
  import opened InflateTrees

  /** The distance, brought below the window size as the decoders do by stepping whole windows. */
  function ModDist(dist: nat, size: nat): (r: nat)
    requires size > 0
    ensures dist > 0 ==> 1 <= r <= size
    ensures dist <= size ==> r == dist
  {
    if dist <= size then dist else ModDist(dist - size, size)
  }

  /** The byte that a copy from this distance takes: base stands for what the window held at first. */
  function HistByte(base: seq<byte>, out: seq<byte>, dist: nat): byte
    requires |base| > 0 && dist > 0
  {
    (base + out)[|base| + |out| - ModDist(dist, |base|)]
  }

  /** The window index a copy reads when the next byte goes to index q. */
  function Source(q: nat, dist: nat, size: nat): (f: nat)
    requires size > 0 && 0 < dist && q <= size
    ensures f < size
    ensures f < q ==> q - f == ModDist(dist, size)
    ensures f >= q ==> q + size - f == ModDist(dist, size)
  {
    var d := ModDist(dist, size);
    if d <= q then q - d else q + size - d
  }

  /** The output after n bytes of a match at this distance. */
  function Extend(base: seq<byte>, out: seq<byte>, dist: nat, n: nat): seq<byte>
    requires |base| > 0 && dist > 0
    decreases n
  {
    if n == 0 then out else Extend(base, out + [HistByte(base, out, dist)], dist, n - 1)
  }

  class Window {
    const size: nat
    const base: seq<byte>        // what the window held before any output
    const window: array<byte>
    var read: nat                // window read index
    var write: nat               // window write index
    var avail: nat               // room the caller has left
    var sink: seq<byte>          // bytes delivered to the caller
    ghost var out: seq<byte>     // bytes produced
    ghost var lap: nat           // where index 0 of the window lies in base + out

    ghost function Hist(): seq<byte>
      reads this
    {
      base + out
    }

    /** Bytes between read and write are produced but not delivered; the window holds the last size bytes. */
    ghost predicate Valid()
      reads this, window
    {
      && 0 < size == window.Length == |base|
      && read < size && write <= size
      && size <= lap && lap + write == |Hist()|
      && size + |sink| == (if read <= write then lap + read else lap - size + read)
      && |sink| <= |out| && sink == out[..|sink|]
      && Mirrors(window[..], Hist(), lap, write)
    }

    constructor (w: array<byte>)
      requires w.Length > 0
      ensures Valid() && window == w && size == w.Length && base == w[..]
      ensures out == [] && sink == [] && read == write == 0 && avail == 0
    {
      size := w.Length;
      base := w[..];
      window := w;
      read, write, avail, sink, out, lap := 0, 0, 0, [], [], w.Length;
    }

    /** WAVAIL: how many bytes can be written before the end or the read index. */
    function WAvail(): nat
      requires write <= size
      reads this
    {
      if write < read then read - write - 1 else size - write
    }

    /** The caller offers more room. */
    method Grant(n: nat)
      requires Valid()
      modifies this`avail
      ensures Valid() && avail == old(avail) + n
    {
      avail := avail + n;
    }

    /** OUTBYTE. */
    method OutByte(c: byte)
      requires Valid() && WAvail() > 0
      modifies window, this`write, this`out
      ensures Valid() && out == old(out) + [c] && write == old(write) + 1
      ensures WAvail() == old(WAvail()) - 1
    {
      ghost var w := window[..];
      window[write] := c;
      assert window[..] == w[write := c];
      write := write + 1;
      out := out + [c];
      assert Hist() == old(Hist()) + [c];
    }

    /** WRAP: moves the write index from the end to the beginning when that is free. */
    method Wrap()
      requires Valid()
      modifies this`write, this`lap
      ensures Valid() && (write == old(write) || (old(write) == size && write == 0))
      ensures write == size ==> read == 0
      ensures WAvail() >= old(WAvail())
    {
      if write == size && read != 0 {
        MirrorLap(window[..], Hist(), lap);
        write := 0;
        lap := lap + size;
      }
    }

    /** Delivers n bytes from the read index on. */
    method Deliver(n: nat, r: Ret) returns (r': Ret)
      requires Valid() && n <= avail && n <= (if read <= write then write - read else size - read)
      modifies this`read, this`write, this`lap, this`avail, this`sink
      ensures Valid() && |sink| == |old(sink)| + n && avail == old(avail) - n
      ensures r' == if n > 0 && r == Z_BUF_ERROR then Z_OK else r
      ensures write == old(write) || (old(write) == size && write == 0)
      ensures old(read) + n < size ==> read == old(read) + n && write == old(write)
      ensures old(read) + n == size ==> read == 0 && write == (if old(write) == size then 0 else old(write))
    {
      hide Mirrors;
      r' := if n > 0 && r == Z_BUF_ERROR then Z_OK else r;
      avail := avail - n;
      MirrorSlice(window[..], base, out, lap, write, size, read, n, |sink|);
      sink := sink + window[read..read + n];
      read := read + n;
      if read == size {
        read := 0;
        if write == size {
          MirrorLap(window[..], Hist(), lap);
          write := 0;
          lap := lap + size;
        }
      }
    }

    /** inflate_flush: copies as much as possible from the window to the caller. */
    method Flush(r: Ret) returns (r': Ret)
      requires Valid()
      modifies this`read, this`write, this`lap, this`avail, this`sink
      ensures Valid()
      ensures avail == 0 || (sink == out && read == write)
      ensures avail + |sink| == old(avail) + |old(sink)| && avail <= old(avail)
      ensures r' == if |sink| > |old(sink)| && r == Z_BUF_ERROR then Z_OK else r
      ensures avail > 0 ==> WAvail() > 0
      ensures write == old(write) || (old(write) == size && write == 0)
    {
      var n := (if read <= write then write else size) - read;
      if n > avail {
        n := avail;
      }
      var atEnd := read + n == size;
      r' := Deliver(n, r);
      if atEnd {
        n := write;
        if n > avail {
          n := avail;
        }
        r' := Deliver(n, r');
      }
    }

    /** NEEDOUT: makes room for at least one byte, delivering if need be. */
    method NeedOut(r: Ret) returns (ok: bool, r': Ret)
      requires Valid()
      modifies this`read, this`write, this`lap, this`avail, this`sink
      ensures Valid()
      ensures ok ==> WAvail() > 0 && r' == Z_OK
      ensures !ok ==> avail == 0 && r' == if |sink| > |old(sink)| && r == Z_BUF_ERROR then Z_OK else r
      ensures avail + |sink| == old(avail) + |old(sink)|
      ensures write == old(write) || (old(write) == size && write == 0)
    {
      r' := r;
      if WAvail() == 0 {
        Wrap();
        if WAvail() == 0 {
          r' := Flush(r');
          Wrap();
          if WAvail() == 0 {
            return false, r';
          }
        }
      }
      return true, Z_OK;
    }

    /** zmemcpy of a stored block's bytes into the window. */
    method PutBytes(s: seq<byte>)
      requires Valid() && |s| <= WAvail()
      modifies window, this`write, this`out
      ensures Valid() && out == old(out) + s && write == old(write) + |s|
    {
      var i := 0;
      while i < |s|
        invariant i <= |s| && Valid() && out == old(out) + s[..i] && write == old(write) + i
        invariant WAvail() == old(WAvail()) - i
      {
        OutByte(s[i]);
        i := i + 1;
      }
    }

    /** The pointer arithmetic that finds where a match is copied from. */
    method FindSource(dist: nat) returns (f: nat)
      requires Valid() && dist > 0
      ensures f == Source(write, dist, size)
    {
      var g: int := write - dist;
      while g < 0
        invariant if write - g >= 1 then ModDist(write - g, size) == ModDist(dist, size)
                  else g == Source(write, dist, size)
        decreases -g
      {
        g := g + size;
      }
      f := g;
    }

    lemma Facts()
      requires Valid()
      ensures 0 < size == window.Length == |base| && read < size && write <= size
      ensures WAvail() > 0 ==> write < size
    {
      hide Mirrors;
    }

    /** The byte that a match copies from index f. */
    lemma SourceByte(dist: nat)
      requires Valid() && dist > 0
      ensures window[Source(write, dist, size)] == HistByte(base, out, dist)
    {
      var f := Source(write, dist, size);
      assert window[..][f] == window[f];
    }

    /** NEEDOUT and OUTBYTE(*f++) of the COPY loop. */
    method CopyByte(dist: nat, f: nat, r: Ret) returns (ok: bool, f': nat, r': Ret)
      requires Valid() && dist > 0 && f == Source(write, dist, size)
      modifies window, this`read, this`write, this`lap, this`avail, this`sink, this`out
      ensures Valid() && (ok ==> f' == Source(write, dist, size))
      ensures out == if ok then old(out) + [HistByte(base, old(out), dist)] else old(out)
      ensures !ok ==> avail == 0
      ensures avail + |sink| == old(avail) + |old(sink)|
      ensures r' == r || r' == Z_OK
    {
      hide *;
      ok, r' := NeedOut(r);
      f' := f;
      if ok {
        Facts();
        SourceByte(dist);
        OutByte(window[f]);
        f' := if f + 1 == size then 0 else f + 1;
      }
    }

    /** The COPY loop of inflate_codes: goes on until the match is done or the caller has no room. */
    method CopyMatch(dist: nat, len: nat, r: Ret) returns (ok: bool, left: nat, r': Ret)
      requires Valid() && dist > 0
      modifies window, this`read, this`write, this`lap, this`avail, this`sink, this`out
      ensures Valid() && left <= len && out == Extend(base, old(out), dist, len - left)
      ensures ok ==> left == 0
      ensures !ok ==> left > 0 && avail == 0
      ensures avail + |sink| == old(avail) + |old(sink)|
      ensures r' == r || r' == Z_OK
    {
      hide Extend, HistByte, Mirrors;
      r' := r;
      left := len;
      ExtendNone(base, out, dist);
      var f := FindSource(dist);
      while left > 0
        invariant Valid() && left <= len && out == Extend(base, old(out), dist, len - left)
        invariant left > 0 ==> f == Source(write, dist, size)
        invariant avail + |sink| == old(avail) + |old(sink)|
        invariant r' == r || r' == Z_OK
      {
        ExtendOne(base, old(out), dist, len - left);
        ok, f, r' := CopyByte(dist, f, r');
        if !ok {
          return;
        }
        left := left - 1;
      }
      ok := true;
    }

    /** The unchecked copy loop of inflate_fast: n bytes from index f on, without a wrap on either side. */
    method CopyRun(dist: nat, f: nat, n: nat)
      requires Valid() && dist > 0 && n <= WAvail() && f + n <= size
      requires n > 0 ==> f == Source(write, dist, size)
      modifies window, this`write, this`out
      ensures Valid() && out == Extend(base, old(out), dist, n) && write == old(write) + n
      ensures WAvail() == old(WAvail()) - n
      ensures f + n < size && n > 0 ==> f + n == Source(write, dist, size)
      ensures f + n == size && n > 0 ==> 0 == Source(write, dist, size)
    {
      hide Mirrors, HistByte, Extend, Source;
      ExtendNone(base, out, dist);
      var i := 0;
      while i < n
        invariant i <= n && Valid() && out == Extend(base, old(out), dist, i) && write == old(write) + i
        invariant WAvail() == old(WAvail()) - i
        invariant if f + i < size then n > 0 ==> f + i == Source(write, dist, size)
                  else n > 0 ==> 0 == Source(write, dist, size)
      {
        SourceByte(dist);
        ExtendOne(base, old(out), dist, i);
        OutByte(window[f + i]);
        i := i + 1;
      }
    }

    /** The copy of inflate_fast, in two pieces when the source wraps. */
    method FastCopy(dist: nat, len: nat)
      requires Valid() && dist > 0 && 3 <= len <= WAvail()
      modifies window, this`write, this`out
      ensures Valid() && out == Extend(base, old(out), dist, len) && write == old(write) + len
      ensures WAvail() == old(WAvail()) - len
    {
      var f := FindSource(dist);
      if write < dist {
        var e := size - f;
        if len > e {
          CopyRun(dist, f, e);
          ExtendMore(base, old(out), dist, e, len - e);
          CopyRun(dist, 0, len - e);
        } else {
          CopyRun(dist, f, len);
        }
      } else {
        CopyRun(dist, f, len);
      }
    }
  }

  lemma ExtendNone(base: seq<byte>, out: seq<byte>, dist: nat)
    requires |base| > 0 && dist > 0
    ensures Extend(base, out, dist, 0) == out
  {
  }

  lemma {:induction false} ExtendOne(base: seq<byte>, out: seq<byte>, dist: nat, n: nat)
    requires |base| > 0 && dist > 0
    ensures Extend(base, out, dist, n + 1)
         == Extend(base, out, dist, n) + [HistByte(base, Extend(base, out, dist, n), dist)]
    decreases n
  {
    if n > 0 {
      ExtendOne(base, out + [HistByte(base, out, dist)], dist, n - 1);
    }
  }

  lemma {:induction false} ExtendMore(base: seq<byte>, out: seq<byte>, dist: nat, m: nat, n: nat)
    requires |base| > 0 && dist > 0
    ensures Extend(base, out, dist, m + n) == Extend(base, Extend(base, out, dist, m), dist, n)
    decreases m
  {
    if m > 0 {
      ExtendMore(base, out + [HistByte(base, out, dist)], dist, m - 1, n);
    }
  }

  /** Index i of the window holds the last byte of h that fell on it. */
  ghost predicate Mirrors(w: seq<byte>, h: seq<byte>, lap: nat, write: nat) {
    && |w| <= lap && write <= |w| && lap + write == |h|
    && (forall i | 0 <= i < write :: w[i] == h[lap + i])
    && (forall i | write <= i < |w| :: w[i] == h[lap - |w| + i])
  }

  lemma MirrorLap(w: seq<byte>, h: seq<byte>, lap: nat)
    requires Mirrors(w, h, lap, |w|)
    ensures Mirrors(w, h, lap + |w|, 0)
  {
  }

  /** The bytes from the read index on are the next ones to deliver. */
  lemma MirrorSlice(w: seq<byte>, base: seq<byte>, out: seq<byte>, lap: nat, write: nat, size: nat, read: nat, n: nat,
                    done: nat)
    requires |w| == size == |base| && Mirrors(w, base + out, lap, write) && read < size
    requires size + done == (if read <= write then lap + read else lap - size + read)
    requires n <= (if read <= write then write - read else size - read)
    ensures done + n <= |out| && out[..done] + w[read..read + n] == out[..done + n]
  {
    var h, s := base + out, w[read..read + n];
    forall i | 0 <= i < n
      ensures s[i] == out[done + i]
    {
      assert h[size + done + i] == out[done + i];
    }
  }
}
