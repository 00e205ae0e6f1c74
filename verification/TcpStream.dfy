/** Stream reassembly, the same algorithm on both sides: oxf_tcp_server_process_msg
    (transport/ox-fabrics/tcp-server.c) and oxf_tcp_client_process_msg
    (transport/ox-fabrics/tcp-client.c). */
module TcpStream {
  import opened Bytes
  import opened TcpFrames

  /** A chunk that completes a split header and nothing more is only stored. */
  predicate HeaderOnly(p: seq<byte>, c: seq<byte>) {
    0 < |p| < HEADER_SIZE && |p| + |c| == HEADER_SIZE
  }

  /** The capsules one call delivers. */
  ghost function StepFrames(p: seq<byte>, c: seq<byte>): seq<seq<byte>>
    requires Sane(p + c)
  {
    if HeaderOnly(p, c) then [] else Frames(p + c)
  }

  /** The bytes one call leaves in the broken buffer. */
  ghost function StepRest(p: seq<byte>, c: seq<byte>): seq<byte>
    requires Sane(p + c)
  {
    if HeaderOnly(p, c) then p + c else Rest(p + c)
  }

  /** The call parses its input in full exactly when it does not end on a bare-header capsule whose
      header was split: such a capsule is held back until more bytes arrive. */
  lemma HeldBack(p: seq<byte>, c: seq<byte>)
    requires Sane(p + c)
    ensures StepFrames(p, c) == Frames(p + c) && StepRest(p, c) == Rest(p + c)
            <==> !(HeaderOnly(p, c) && Size(p + c) == HEADER_SIZE)
  {
  }

  lemma HeldBackExample()
    ensures var p, c: seq<byte> := [7], [3, 0];
            Sane(p + c) && Frames(p + c) == [p + c] && StepFrames(p, c) == []
  {
    var s: seq<byte> := [7, 3, 0];
    assert s[3..] == [] && s[..3] == s;
    assert Sane(s[3..]) && Frames(s[3..]) == [];
    assert [7] + [3, 0] == s;
  }

  lemma Unfinished(s: seq<byte>)
    requires !Complete(s)
    ensures Sane(s) ==> Frames(s) == [] && Rest(s) == s
  {
  }

  lemma Finished(s: seq<byte>)
    requires Complete(s) && Sane(s)
    ensures HEADER_SIZE <= Size(s) <= BUFFER_SIZE && Sane(s[Size(s)..])
    ensures Frames(s) == [s[..Size(s)]] + Frames(s[Size(s)..]) && Rest(s) == Rest(s[Size(s)..])
  {
  }

  lemma SizeFits(s: seq<byte>)
    requires Sane(s) && HEADER_SIZE <= |s|
    ensures HEADER_SIZE <= Size(s) <= BUFFER_SIZE
  {
  }

  lemma SameHeader(p: seq<byte>, c: seq<byte>)
    requires HEADER_SIZE <= |p|
    ensures Size(p + c) == Size(p)
  {
  }

  /** A cut behind the first part falls into the second. */
  lemma CutInside(p: seq<byte>, c: seq<byte>, n: nat)
    requires n <= |c|
    ensures (p + c)[..|p| + n] == p + c[..n] && (p + c)[|p| + n..] == c[n..]
  {
  }

  lemma SubSlice(s: seq<byte>, a: nat, b: nat, n: nat)
    requires a + n <= b <= |s|
    ensures s[a..b][..n] == s[a..a + n] && s[a..b][n..] == s[a + n..b]
  {
  }

  /** Copying `n` bytes between buffers. */
  method Memcpy(dst: array<byte>, d: nat, src: array<byte>, o: nat, n: nat)
    requires dst != src && d + n <= dst.Length && o + n <= src.Length
    modifies dst
    ensures dst[..d] == old(dst[..d]) && dst[d..d + n] == src[o..o + n]
    ensures dst[..d + n] == old(dst[..d]) + src[o..o + n]
  {
    forall i | 0 <= i < n {
      dst[d + i] := src[o + i];
    }
  }

  class Receiver {
    const broken: array<byte>
    var brkBytes: nat
    /** The calls of the receive function, in order. */
    var delivered: seq<seq<byte>>

    constructor ()
      ensures Valid() && Held() == [] && delivered == [] && fresh(broken)
    {
      broken := new byte[BUFFER_SIZE];
      brkBytes, delivered := 0, [];
    }

    ghost predicate Valid()
      reads this, broken
    {
      broken.Length == BUFFER_SIZE && brkBytes <= BUFFER_SIZE &&
      (Complete(Held()) ==> brkBytes == HEADER_SIZE)
    }

    /** The bytes of a capsule that is not complete yet. */
    ghost function Held(): seq<byte>
      requires brkBytes <= broken.Length
      reads this, broken
    {
      broken[..brkBytes]
    }

    /** One call: deliver what the held bytes and the chunk complete, hold the rest. */
    method ProcessMsg(buffer: array<byte>, msgBytes: nat)
      requires Valid() && buffer != broken && 0 < msgBytes <= buffer.Length && msgBytes <= BUFFER_SIZE
      requires Sane(Held() + buffer[..msgBytes])
      modifies this, broken
      ensures Valid()
      ensures delivered == old(delivered) + StepFrames(old(Held()), buffer[..msgBytes])
      ensures Held() == StepRest(old(Held()), buffer[..msgBytes])
    {
      hide Sane, Frames, Rest;
      ghost var p, c := Held(), buffer[..msgBytes];
      ghost var s := p + c;
      var offset := 0;
      if brkBytes != 0 {
        if brkBytes < HEADER_SIZE {
          if msgBytes + brkBytes < HEADER_SIZE {
            Hold(buffer, 0, msgBytes);
            Unfinished(s);
            return;
          }
          offset := HEADER_SIZE - brkBytes;
          Hold(buffer, 0, offset);
          if offset == msgBytes {
            return;
          }
        }
        assert s == Held() + buffer[offset..msgBytes];
        CompleteHeld(buffer, offset, msgBytes);
      } else {
        assert s == buffer[offset..msgBytes];
        DeliverWhole(buffer, offset, msgBytes);
      }
    }

    /** The part of the call after the header of the held capsule is there. */
    method CompleteHeld(buffer: array<byte>, start: nat, msgBytes: nat)
      requires Valid() && buffer != broken && HEADER_SIZE <= brkBytes
      requires start <= msgBytes <= buffer.Length && msgBytes <= BUFFER_SIZE
      requires Sane(Held() + buffer[start..msgBytes])
      modifies this, broken
      ensures Valid()
      ensures delivered == old(delivered) + Frames(old(Held()) + buffer[start..msgBytes])
      ensures Held() == Rest(old(Held()) + buffer[start..msgBytes])
    {
      hide Sane, Frames, Rest;
      ghost var p, c := Held(), buffer[start..msgBytes];
      var msgSz := Word(broken[1], broken[2]);
      SameHeader(p, c);
      SizeFits(p + c);
      if brkBytes + (msgBytes - start) < msgSz {
        Hold(buffer, start, msgBytes - start);
        Unfinished(p + c);
        return;
      }
      Finished(p + c);
      var took := msgSz - brkBytes;
      CutInside(p, c, took);
      SubSlice(buffer[..], start, msgBytes, took);
      Hold(buffer, start, took);
      assert Held() == (p + c)[..msgSz];
      delivered := delivered + [broken[..msgSz]];
      brkBytes := 0;
      DeliverWhole(buffer, start + took, msgBytes);
    }

    /** Bytes of the chunk are added to the broken buffer. */
    method Hold(buffer: array<byte>, o: nat, n: nat)
      requires buffer != broken && brkBytes + n <= broken.Length && o + n <= buffer.Length
      modifies this`brkBytes, broken
      ensures brkBytes == old(brkBytes) + n && Held() == old(Held()) + buffer[o..o + n]
    {
      Memcpy(broken, brkBytes, buffer, o, n);
      brkBytes := brkBytes + n;
    }

    /** The loop over the capsules inside one chunk; a tail that is not complete is kept. */
    method DeliverWhole(buffer: array<byte>, start: nat, msgBytes: nat)
      requires Valid() && brkBytes == 0 && buffer != broken
      requires start <= msgBytes <= buffer.Length && msgBytes <= BUFFER_SIZE
      requires Sane(buffer[start..msgBytes])
      modifies this, broken
      ensures Valid()
      ensures delivered == old(delivered) + Frames(buffer[start..msgBytes])
      ensures Held() == Rest(buffer[start..msgBytes])
    {
      hide Sane, Frames, Rest;
      ghost var s := buffer[start..msgBytes];
      var offset := start;
      while offset < msgBytes
        invariant start <= offset <= msgBytes && Valid()
        invariant brkBytes == 0 ==> Sane(buffer[offset..msgBytes])
        invariant brkBytes == 0 ==> delivered + Frames(buffer[offset..msgBytes]) == old(delivered) + Frames(s)
        invariant brkBytes == 0 ==> Rest(buffer[offset..msgBytes]) == Rest(s)
        invariant brkBytes != 0 ==> offset == msgBytes
        invariant brkBytes != 0 ==> delivered == old(delivered) + Frames(s) && Held() == Rest(s)
      {
        ghost var r := buffer[offset..msgBytes];
        if msgBytes - offset < HEADER_SIZE ||
           msgBytes - offset < Word(buffer[offset + 1], buffer[offset + 2]) {
          Hold(buffer, offset, msgBytes - offset);
          Unfinished(r);
          offset := msgBytes;
        } else {
          var msgSz := Word(buffer[offset + 1], buffer[offset + 2]);
          Finished(r);
          SubSlice(buffer[..], offset, msgBytes, msgSz);
          delivered := delivered + [buffer[offset..offset + msgSz]];
          offset := offset + msgSz;
        }
      }
      if brkBytes == 0 {
        Unfinished(buffer[msgBytes..msgBytes]);
      }
    }

    /** The connection's receive loop. However the capsules that the other side sends for its messages
        are cut into chunks, the capsules delivered are exactly those completed, in order, they decode
        to the messages sent, and the bytes held are exactly those behind them. */
    method Connection(chunks: seq<seq<byte>>, ghost ms: seq<Msg>)
      requires Valid() && Held() == [] && delivered == []
      requires forall i :: 0 <= i < |chunks| ==> 0 < |chunks[i]| <= MAX_DGRAM
      requires (forall i :: 0 <= i < |ms| ==> ms[i].Sendable()) && Concat(chunks) <= Concat(EncodeAll(ms))
      modifies this, broken
      ensures Valid()
      ensures |delivered| == Done(EncodeAll(ms), |Concat(chunks)|)
      ensures forall i :: 0 <= i < |delivered| ==>
                HEADER_SIZE <= |delivered[i]| && i < |ms| && Decode(delivered[i]) == ms[i] && delivered[i] == Encode(ms[i])
      ensures Concat(chunks) == Concat(delivered) + Held()
    {
      hide Sane, Frames, Rest, Encode, Decode;
      EncodeAllWellFormed(ms);
      ReceiveAll(chunks, EncodeAll(ms));
    }

    /** The same for any stream of well-formed capsules. */
    method ReceiveAll(chunks: seq<seq<byte>>, ghost fs: seq<seq<byte>>)
      requires Valid() && Held() == [] && delivered == []
      requires forall i :: 0 <= i < |chunks| ==> 0 < |chunks[i]| <= MAX_DGRAM
      requires AllWellFormed(fs) && Concat(chunks) <= Concat(fs)
      modifies this, broken
      ensures Valid()
      ensures delivered == fs[..Done(fs, |Concat(chunks)|)]
      ensures Concat(chunks) == Concat(delivered) + Held()
    {
      var buffer := new byte[BUFFER_SIZE];
      for i := 0 to |chunks|
        invariant Valid() && fresh(buffer) && buffer.Length == BUFFER_SIZE
        invariant Sane(Concat(chunks[..i]))
        invariant delivered == Frames(Concat(chunks[..i])) && Held() == Rest(Concat(chunks[..i]))
      {
        ghost var s, c := Concat(chunks[..i]), chunks[i];
        NextPrefix(chunks, i, fs);
        var n := Recv(buffer, chunks[i]);
        Resume(s, c);
        HeldBack(Held(), c);
        NoBareHeader(fs, s, c);
        ProcessMsg(buffer, n);
      }
      assert chunks[..|chunks|] == chunks;
      PrefixParses(fs, Concat(chunks));
    }
  }

  /** recv: a chunk of the stream at the front of the buffer. */
  method Recv(buffer: array<byte>, chunk: seq<byte>) returns (n: nat)
    requires |chunk| <= buffer.Length
    modifies buffer
    ensures n == |chunk| && buffer[..n] == chunk
  {
    n := |chunk|;
    forall i | 0 <= i < n {
      buffer[i] := chunk[i];
    }
  }

  lemma {:induction false} PrefixOfConcat<T>(ss: seq<seq<T>>, k: nat)
    requires k <= |ss|
    ensures Concat(ss[..k]) <= Concat(ss)
  {
    if k > 0 {
      assert ss[..k][1..] == ss[1..][..k - 1];
      PrefixOfConcat(ss[1..], k - 1);
    }
  }

  lemma NextPrefix(chunks: seq<seq<byte>>, i: nat, fs: seq<seq<byte>>)
    requires i < |chunks| && AllWellFormed(fs) && Concat(chunks) <= Concat(fs)
    ensures Concat(chunks[..i + 1]) == Concat(chunks[..i]) + chunks[i]
    ensures Concat(chunks[..i + 1]) <= Concat(fs) && Sane(Concat(chunks[..i + 1]))
  {
    assert chunks[..i + 1] == chunks[..i] + [chunks[i]];
    ConcatSnoc(chunks[..i], chunks[i]);
    PrefixOfConcat(chunks, i + 1);
    PrefixParses(fs, Concat(chunks[..i + 1]));
  }

  /** In a stream of well-formed capsules every capsule parsed is longer than its header. */
  lemma ParsedLong(fs: seq<seq<byte>>, p: seq<byte>, before: seq<seq<byte>>, r: seq<byte>)
    requires AllWellFormed(fs) && p <= Concat(fs)
    requires Sane(p) && Sane(r) && Complete(r) && Frames(p) == before + Frames(r)
    ensures Size(r) > HEADER_SIZE
  {
    PrefixParses(fs, p);
    Finished(r);
    var k := |before|;
    assert Frames(p)[k] == r[..Size(r)];
    assert WellFormed(fs[k]);
  }

  /** No held header is a whole capsule there. */
  lemma NoBareHeader(fs: seq<seq<byte>>, s: seq<byte>, c: seq<byte>)
    requires AllWellFormed(fs) && s + c <= Concat(fs) && Sane(s) && Sane(s + c)
    ensures HeaderOnly(Rest(s), c) ==> Size(Rest(s) + c) > HEADER_SIZE
  {
    hide Sane, Frames, Size, WellFormed;
    if HeaderOnly(Rest(s), c) {
      Resume(s, c);
      var r := Rest(s) + c;
      if Complete(r) {
        ParsedLong(fs, s + c, Frames(s), r);
      }
    }
  }
}
