/** The byte stream between fabrics host and server: capsules whose header gives a type byte and a
    16-bit little-endian size (transport/ox-fabrics/ox-fabrics.h). What a prefix of the stream says
    about the capsules completed so far. */
module TcpFrames {
  import opened Bytes

  const HEADER_SIZE: nat := 3
  const MAX_DGRAM: nat := 65507

  /** Buffers hold OXF_MAX_DGRAM + 1 bytes. */
  const BUFFER_SIZE: nat := MAX_DGRAM + 1

  /** A 16-bit field, low byte first. */
  function Word(lo: int, hi: int): int { lo + 256 * hi }

  /** The size field of a capsule. */
  function Size(s: seq<byte>): nat
    requires HEADER_SIZE <= |s|
  {
    Word(s[1], s[2])
  }

  predicate Complete(s: seq<byte>) { HEADER_SIZE <= |s| && Size(s) <= |s| }

  /** Every capsule that begins in the stream declares at least its header and fits the buffer. */
  ghost predicate Sane(s: seq<byte>)
    decreases |s|
  {
    HEADER_SIZE <= |s| ==>
      HEADER_SIZE <= Size(s) <= BUFFER_SIZE && (Size(s) <= |s| ==> Sane(s[Size(s)..]))
  }

  /** The capsules that are complete, taken greedily from the front. */
  ghost function Frames(s: seq<byte>): seq<seq<byte>>
    requires Sane(s)
    decreases |s|
  {
    if Complete(s) then [s[..Size(s)]] + Frames(s[Size(s)..]) else []
  }

  /** What is left behind them. */
  ghost function Rest(s: seq<byte>): (r: seq<byte>)
    requires Sane(s)
    ensures Sane(r) && !Complete(r) && |r| <= |s|
    decreases |s|
  {
    if Complete(s) then Rest(s[Size(s)..]) else s
  }

  /** Parsing may stop anywhere and go on from what was left. */
  lemma {:induction false} Resume(s: seq<byte>, t: seq<byte>)
    requires Sane(s + t)
    ensures Sane(s) && Sane(Rest(s) + t)
    ensures Frames(s + t) == Frames(s) + Frames(Rest(s) + t)
    ensures Rest(s + t) == Rest(Rest(s) + t)
    decreases |s|
  {
    if HEADER_SIZE <= |s| {
      assert Size(s + t) == Size(s);
      if Size(s) <= |s| {
        var n := Size(s);
        assert (s + t)[n..] == s[n..] + t;
        assert (s + t)[..n] == s[..n];
        Resume(s[n..], t);
      }
    }
  }

  function Concat<T>(ss: seq<seq<T>>): seq<T> {
    if ss == [] then [] else ss[0] + Concat(ss[1..])
  }

  lemma {:induction false} ConcatSnoc<T>(ss: seq<seq<T>>, s: seq<T>)
    ensures Concat(ss + [s]) == Concat(ss) + s
  {
    if ss == [] {
      assert Concat([s]) == s + Concat<T>([]);
    } else {
      assert (ss + [s])[1..] == ss[1..] + [s];
      ConcatSnoc(ss[1..], s);
    }
  }

  // ----- The capsules that were sent -----

  /** A capsule whose declared size is its length, more than a bare header and no more than a buffer. */
  ghost predicate WellFormed(f: seq<byte>) {
    HEADER_SIZE < |f| <= BUFFER_SIZE && Size(f) == |f|
  }

  /** What a side sends: a type byte and a payload. */
  datatype Msg = Msg(kind: byte, payload: seq<byte>)
  {
    ghost predicate Sendable() { 0 < |payload| <= BUFFER_SIZE - HEADER_SIZE }
  }

  /** The sender's capsule: type, size of the whole capsule with its low byte first, payload. */
  function Encode(m: Msg): (f: seq<byte>)
    requires |m.payload| <= BUFFER_SIZE - HEADER_SIZE
  {
    var n := HEADER_SIZE + |m.payload|;
    [m.kind, n % 256, n / 256] + m.payload
  }

  /** What the receive function makes of a delivered capsule. */
  function Decode(f: seq<byte>): (m: Msg)
    requires HEADER_SIZE <= |f|
  {
    Msg(f[0], f[HEADER_SIZE..])
  }

  /** A sent capsule is well-formed, and its message comes back. */
  lemma EncodeDecode(m: Msg)
    requires m.Sendable()
    ensures WellFormed(Encode(m)) && Decode(Encode(m)) == m
  {
    assert Encode(m)[HEADER_SIZE..] == m.payload;
  }

  /** There are no other well-formed capsules. */
  lemma DecodeEncode(f: seq<byte>)
    requires WellFormed(f)
    ensures Decode(f).Sendable() && Encode(Decode(f)) == f
  {
    var n := |f|;
    assert n == Word(f[1], f[2]);
    assert n % 256 == f[1] && n / 256 == f[2];
    assert f == [f[0], f[1], f[2]] + f[HEADER_SIZE..];
  }

  ghost function EncodeAll(ms: seq<Msg>): (fs: seq<seq<byte>>)
    requires forall i :: 0 <= i < |ms| ==> ms[i].Sendable()
  {
    seq(|ms|, i requires 0 <= i < |ms| => assert ms[i].Sendable(); Encode(ms[i]))
  }

  lemma EncodeAllWellFormed(ms: seq<Msg>)
    requires forall i :: 0 <= i < |ms| ==> ms[i].Sendable()
    ensures AllWellFormed(EncodeAll(ms)) && |EncodeAll(ms)| == |ms|
    ensures forall i :: 0 <= i < |ms| ==> HEADER_SIZE <= |EncodeAll(ms)[i]| && Decode(EncodeAll(ms)[i]) == ms[i]
  {
    forall i | 0 <= i < |ms| ensures WellFormed(EncodeAll(ms)[i]) && Decode(EncodeAll(ms)[i]) == ms[i] {
      EncodeDecode(ms[i]);
    }
  }

  ghost predicate AllWellFormed(fs: seq<seq<byte>>) {
    forall i :: 0 <= i < |fs| ==> WellFormed(fs[i])
  }

  /** How many of the capsules sent are complete in the first `n` bytes. */
  ghost function Done<T>(fs: seq<seq<T>>, n: nat): (k: nat)
    ensures k <= |fs|
  {
    if fs == [] || n < |fs[0]| then 0 else 1 + Done(fs[1..], n - |fs[0]|)
  }

  /** A well-formed capsule in front is the first one parsed. */
  lemma WholeFirst(f: seq<byte>, q: seq<byte>)
    requires WellFormed(f) && Sane(q)
    ensures Sane(f + q) && Frames(f + q) == [f] + Frames(q) && Rest(f + q) == Rest(q)
  {
    var p := f + q;
    assert Size(p) == |f| && p[..|f|] == f && p[|f|..] == q;
  }

  lemma PartialFirst(f: seq<byte>, n: nat)
    requires WellFormed(f) && n < |f|
    ensures Sane(f[..n]) && Frames(f[..n]) == [] && Rest(f[..n]) == f[..n]
    ensures HEADER_SIZE <= n ==> HEADER_SIZE < Size(f[..n])
  {
  }

  /** The prefix `p` of the stream of `fs` parses into exactly the capsules completed in it, and what
      is left is the part of the prefix behind them. */
  ghost predicate Parsed(fs: seq<seq<byte>>, p: seq<byte>) {
    && Sane(p) && Frames(p) == fs[..Done(fs, |p|)]
    && p == Concat(fs[..Done(fs, |p|)]) + Rest(p)
    && (HEADER_SIZE <= |Rest(p)| ==> HEADER_SIZE < Size(Rest(p)))
  }

  lemma ParsedNone(p: seq<byte>)
    requires p == []
    ensures Parsed([], p)
  {
  }

  lemma ParsedPart(fs: seq<seq<byte>>, p: seq<byte>)
    requires fs != [] && WellFormed(fs[0]) && |p| < |fs[0]| && p == fs[0][..|p|]
    ensures Parsed(fs, p)
  {
    PartialFirst(fs[0], |p|);
    assert fs[..0] == [];
  }

  lemma ParsedCons(fs: seq<seq<byte>>, q: seq<byte>)
    requires fs != [] && WellFormed(fs[0]) && Parsed(fs[1..], q)
    ensures Parsed(fs, fs[0] + q)
  {
    hide Sane, Frames, Rest, Size, WellFormed, Complete, Concat, Done;
    var f := fs[0];
    WholeFirst(f, q);
    DoneCons(fs, |f + q|);
    var t := Concat(fs[1..][..Done(fs[1..], |q|)]);
    assert f + (t + Rest(q)) == (f + t) + Rest(q);
  }

  /** A prefix of the stream of well-formed capsules parses into exactly those completed in it. */
  lemma {:induction false} PrefixParses(fs: seq<seq<byte>>, p: seq<byte>)
    requires AllWellFormed(fs) && p <= Concat(fs)
    ensures Parsed(fs, p)
    decreases |fs|
  {
    if fs == [] {
      ParsedNone(p);
    } else {
      hide Parsed, WellFormed;
      var f := fs[0];
      assert Concat(fs) == f + Concat(fs[1..]);
      if |p| < |f| {
        assert p == f[..|p|];
        ParsedPart(fs, p);
      } else {
        var q := p[|f|..];
        assert p == f + q;
        PrefixTail(f, q, Concat(fs[1..]));
        PrefixParses(fs[1..], q);
        ParsedCons(fs, q);
      }
    }
  }

  lemma DoneCons<T>(fs: seq<seq<T>>, n: nat)
    requires fs != [] && |fs[0]| <= n
    ensures fs[..Done(fs, n)] == [fs[0]] + fs[1..][..Done(fs[1..], n - |fs[0]|)]
    ensures Concat(fs[..Done(fs, n)]) == fs[0] + Concat(fs[1..][..Done(fs[1..], n - |fs[0]|)])
  {
    var k := Done(fs[1..], n - |fs[0]|);
    assert fs[..k + 1] == [fs[0]] + fs[1..][..k];
    assert fs[..k + 1][1..] == fs[1..][..k];
  }

  lemma PrefixTail<T>(f: seq<T>, q: seq<T>, t: seq<T>)
    requires f + q <= f + t
    ensures q <= t
  {
    assert forall i :: 0 <= i < |q| ==> (f + q)[|f| + i] == q[i] && (f + t)[|f| + i] == t[i];
  }
}
