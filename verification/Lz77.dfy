/** LZ77 tokens and what they stand for. */
module Lz77 {
  import opened Stream
  import OutputWindow

  const MIN_MATCH: nat := 3
  const MAX_MATCH: nat := 258

  datatype Token = Literal(c: byte) | Match(dist: nat, len: nat)

  /** n bytes copied from dist back, one at a time, so that a match may overlap itself. */
  function Copy(out: seq<byte>, dist: nat, n: nat): seq<byte>
    requires 0 < dist <= |out|
    decreases n
  {
    if n == 0 then out else Copy(out + [out[|out| - dist]], dist, n - 1)
  }

  /** The output after one more token; a match that reaches too far back changes nothing. */
  function Apply(out: seq<byte>, t: Token): seq<byte> {
    match t
    case Literal(c) => out + [c]
    case Match(dist, len) => if 0 < dist <= |out| then Copy(out, dist, len) else out
  }

  function Expand(out: seq<byte>, ts: seq<Token>): seq<byte> {
    if ts == [] then out else Apply(Expand(out, ts[..|ts| - 1]), ts[|ts| - 1])
  }

  /** The strings at p and at dist before it agree for n bytes. */
  predicate Agree(s: seq<byte>, p: int, dist: int, n: int) {
    0 < dist <= p && p + n <= |s| && forall j | p <= j < p + n :: s[j] == s[j - dist]
  }

  /** A genuine match expands to the bytes that it stands for. */
  lemma {:induction false} CopyIsMatch(s: seq<byte>, p: nat, dist: nat, n: nat)
    requires Agree(s, p, dist, n)
    ensures Copy(s[..p], dist, n) == s[..p + n]
    decreases n
  {
    if n > 0 {
      assert s[p] == s[p - dist];
      assert s[..p] + [s[..p][p - dist]] == s[..p + 1];
      CopyIsMatch(s, p + 1, dist, n - 1);
    }
  }

  /** ... also for a decoder that has nothing before position from, if the match does not reach there. */
  lemma CopyFrom(s: seq<byte>, from: nat, p: nat, dist: nat, n: nat)
    requires Agree(s, p, dist, n) && from + dist <= p
    ensures Copy(s[from..p], dist, n) == s[from..p + n]
  {
    hide Copy;
    var t := s[from..];
    forall j | p - from <= j < p - from + n
      ensures t[j] == t[j - dist]
    {
      assert s[from + j] == s[from + j - dist];
    }
    CopyIsMatch(t, p - from, dist, n);
    assert t[..p - from] == s[from..p] && t[..p - from + n] == s[from..p + n];
  }

  lemma ExpandOne(out: seq<byte>, ts: seq<Token>, t: Token)
    ensures Expand(out, ts + [t]) == Apply(Expand(out, ts), t)
  {
    assert (ts + [t])[..|ts|] == ts;
  }

  lemma {:induction false} ExpandTwo(out: seq<byte>, ts: seq<Token>, us: seq<Token>)
    ensures Expand(out, ts + us) == Expand(Expand(out, ts), us)
    decreases |us|
  {
    if us == [] {
      assert ts + us == ts;
    } else {
      ExpandTwo(out, ts, us[..|us| - 1]);
      assert (ts + us)[..|ts + us| - 1] == ts + us[..|us| - 1];
    }
  }

  /** What the window of inflate does for a match is this copy. */
  lemma {:induction false} CopyIsExtend(base: seq<byte>, out: seq<byte>, dist: nat, n: nat)
    requires 0 < dist <= |out| && dist <= |base|
    ensures OutputWindow.Extend(base, out, dist, n) == Copy(out, dist, n)
    decreases n
  {
    if n > 0 {
      assert OutputWindow.HistByte(base, out, dist) == out[|out| - dist];
      CopyIsExtend(base, out + [out[|out| - dist]], dist, n - 1);
    }
  }
}
