/** The NVMe completion queue (core/nvme_ctrl.c; sections 4.1 and 4.6 of NVM Express 1.1): a ring in
    host memory whose entries carry a phase bit, a list of completions that found the ring full, and
    the doorbell by which the host frees entries. */
module CqRing {
  import opened Arithmetic
  import opened Sequences

  type Req = nat

  datatype Entry = Entry(phase: bool, req: Req)

  /** The phase of the i-th entry ever posted: it flips at every wrap, starting with 1. */
  function PhaseOf(i: nat, n: nat): bool
    requires 0 < n
  {
    (i / n) % 2 == 0
  }

  lemma NextIndex(i: nat, n: nat)
    requires 0 < n
    ensures (i + 1) % n == if i % n + 1 >= n then 0 else i % n + 1
    ensures (i + 1) / n == if i % n + 1 >= n then i / n + 1 else i / n
  {
    DivMod(i, n);
    if i % n + 1 >= n {
      assert i + 1 == (i / n + 1) * n;
      DivModUnique(i + 1, n, i / n + 1, 0);
    } else {
      DivModUnique(i + 1, n, i / n, i % n + 1);
    }
  }

  lemma NextPhase(i: nat, n: nat)
    requires 0 < n
    ensures PhaseOf(i + 1, n) == if i % n + 1 >= n then !PhaseOf(i, n) else PhaseOf(i, n)
  {
    NextIndex(i, n);
  }

  lemma IndexApart(i: nat, j: nat, n: nat)
    requires i < j < i + n
    ensures i % n != j % n
  {
    if i % n == j % n {
      DivMod(i, n);
      DivMod(j, n);
      var d := j / n - i / n;
      assert d * n == j - i;
      if 1 <= d { MulMono(1, d, n); }
    }
  }

  lemma OneLapApart(i: nat, n: nat)
    requires 0 < n
    ensures (i + n) % n == i % n && PhaseOf(i + n, n) != PhaseOf(i, n)
  {
    DivMod(i, n);
    assert i + n == (i / n + 1) * n + i % n;
    DivModUnique(i + n, n, i / n + 1, i % n);
  }

  /** The ring holds the last entries posted; a slot never written still has phase 0. */
  ghost predicate RingOk(ring: seq<Entry>, posted: seq<Req>) {
    0 < |ring| &&
    (forall i :: 0 <= i < |posted| && |posted| - |ring| <= i ==>
       ring[i % |ring|] == Entry(PhaseOf(i, |ring|), posted[i])) &&
    (forall j :: |posted| <= j < |ring| ==> !ring[j].phase)
  }

  lemma PostKeeps(ring: seq<Entry>, posted: seq<Req>, req: Req)
    requires RingOk(ring, posted)
    ensures var n := |ring|; var p := |posted|;
            RingOk(ring[p % n := Entry(PhaseOf(p, n), req)], posted + [req])
  {
    var n, p := |ring|, |posted|;
    var ring', posted' := ring[p % n := Entry(PhaseOf(p, n), req)], posted + [req];
    forall i | 0 <= i < |posted'| && |posted'| - n <= i
      ensures ring'[i % n] == Entry(PhaseOf(i, n), posted'[i])
    {
      if i < p { IndexApart(i, p, n); }
    }
    forall j | |posted'| <= j < n ensures !ring'[j].phase {
      DivModUnique(p, n, 0, p);
    }
  }

  /** The slot of the next entry to read shows the expected phase exactly when it has been posted. */
  lemma PhaseTells(ring: seq<Entry>, posted: seq<Req>, r: nat)
    requires RingOk(ring, posted) && r <= |posted| < r + |ring|
    ensures ring[r % |ring|].phase == PhaseOf(r, |ring|) <==> r < |posted|
    ensures r < |posted| ==> ring[r % |ring|].req == posted[r]
  {
    var n := |ring|;
    if r == |posted| {
      if r < n {
        DivModUnique(r, n, 0, r);
      } else {
        OneLapApart(r - n, n);
        assert ring[(r - n) % n] == Entry(PhaseOf(r - n, n), posted[r - n]);
      }
    } else {
      assert ring[r % n] == Entry(PhaseOf(r, n), posted[r]);
    }
  }

  /** The test the controller makes: one slot always stays empty. */
  lemma FullMeans(p: nat, h: nat, n: nat)
    requires 0 < n && h <= p < h + n
    ensures (p % n + 1) % n == h % n <==> p - h == n - 1
  {
    NextIndex(p, n);
    DivModUnique(0, n, 0, 0);
    DivMod(p, n);
    if p % n + 1 < n { DivModUnique(p % n + 1, n, 0, p % n + 1); } else { DivModUnique(n, n, 1, 0); }
    if p - h == n - 1 {
      OneLapApart(h, n);
    } else {
      IndexApart(h, p + 1, n);
    }
  }

  class CompletionQueue {
    const ring: array<Entry>
    var head: nat
    var tail: nat
    var phase: bool
    var pending: seq<Req>
    // The host's side: the next slot to look at and the phase it expects there.
    var hostNext: nat
    var hostPhase: bool
    /** Everything that completed, that was posted and that the host read, in order; entries freed. */
    ghost var completions: seq<Req>
    ghost var posted: seq<Req>
    ghost var read: seq<Req>
    ghost var freed: nat

    /** No unread entry is overwritten: at most Length - 1 entries lie between the freed ones and the
        last posted one. The host has read a prefix of the posted entries. */
    ghost predicate Shape()
      reads this, ring
    {
      0 < ring.Length && RingOk(ring[..], posted) &&
      freed <= |read| <= |posted| < freed + ring.Length && read == posted[..|read|] &&
      head == freed % ring.Length && tail == |posted| % ring.Length &&
      phase == PhaseOf(|posted|, ring.Length) &&
      hostNext == |read| % ring.Length && hostPhase == PhaseOf(|read|, ring.Length)
    }

    /** The posted entries followed by the pending ones are the completions, in order. */
    ghost predicate Valid()
      reads this, ring
    {
      Shape() && posted + pending == completions
    }

    /** Completions wait although the ring has room. */
    ghost predicate Stuck()
      reads this
    {
      !Full() && pending != []
    }

    constructor (size: nat)
      requires 0 < size
      ensures Valid() && fresh(ring) && ring.Length == size
      ensures completions == [] && posted == [] && read == []
    {
      ring := new Entry[size](_ => Entry(false, 0));
      head, tail, phase, pending := 0, 0, true, [];
      hostNext, hostPhase := 0, true;
      completions, posted, read, freed := [], [], [], 0;
    }

    /** nvme_cq_full. */
    predicate Full()
      reads this
    {
      ring.Length == 0 || (tail + 1) % ring.Length == head
    }

    /** nvme_post_cqe and nvme_inc_cq_tail. */
    method PostCqe(req: Req)
      requires Shape() && !Full()
      modifies this`tail, this`phase, this`posted, ring
      ensures Shape() && posted == old(posted) + [req]
    {
      hide RingOk, PhaseOf;
      FullMeans(|posted|, freed, ring.Length);
      PostKeeps(ring[..], posted, req);
      NextIndex(|posted|, ring.Length);
      NextPhase(|posted|, ring.Length);
      DivMod(|posted|, ring.Length);
      ghost var was := ring[..];
      ring[tail] := Entry(phase, req);
      assert ring[..] == was[tail := Entry(phase, req)];
      tail := tail + 1;
      if tail >= ring.Length {
        tail, phase := 0, !phase;
      }
      posted := posted + [req];
      assert read == posted[..|read|];
    }

    /** nvme_enqueue_req_completion. */
    method Enqueue(req: Req)
      requires Valid()
      modifies this, ring
      ensures Valid() && completions == old(completions) + [req] && read == old(read) && freed == old(freed)
      ensures posted == if old(Full()) || old(pending) != [] then old(posted) else old(posted) + [req]
      ensures Stuck() == old(Stuck())
    {
      completions := completions + [req];
      if Full() || pending != [] {
        pending := pending + [req];
        return;
      }
      PostCqe(req);
    }

    /** nvme_post_cqes. A posted request is linked into its submission queue's list through the same
        link the loop follows, so that list's end is where the loop goes next: it posts at most one. */
    method PostCqes()
      requires Valid()
      modifies this, ring
      ensures Valid() && completions == old(completions) && read == old(read) && freed == old(freed)
      ensures head == old(head)
      ensures if old(pending) == [] || old(Full()) then posted == old(posted) && pending == old(pending)
              else posted == old(posted) + [old(pending)[0]] && pending == old(pending)[1..]
    {
      if pending != [] && !Full() {
        var req := pending[0];
        pending := pending[1..];
        PostCqe(req);
      }
    }

    /** The completion queue part of nvme_process_db; `h` counts the entries the host has freed with
        this value. The pending list moves only when the ring was full before. */
    method Doorbell(newVal: nat, ghost h: nat)
      requires Valid() && (newVal < ring.Length ==> freed <= h <= |read| && newVal == h % ring.Length)
      modifies this, ring
      ensures Valid() && completions == old(completions) && read == old(read)
      ensures newVal >= ring.Length ==> freed == old(freed) && posted == old(posted)
      ensures newVal < ring.Length ==>
                freed == h && |posted| == |old(posted)| + if old(Full()) && h > old(freed) && old(pending) != [] then 1 else 0
      ensures newVal < ring.Length && !old(Stuck()) ==>
                (Stuck() <==> old(Full()) && h - old(freed) >= 2 && |old(pending)| >= 2)
      ensures old(Stuck()) ==> Stuck() && posted == old(posted)
    {
      hide RingOk, PhaseOf;
      if newVal >= ring.Length { return; }
      FullMeans(|posted|, freed, ring.Length);
      FullMeans(|posted|, h, ring.Length);
      var startSqs := Full();
      head := newVal;
      freed := h;
      if startSqs {
        PostCqes();
        FullMeans(|posted|, h, ring.Length);
      }
    }

    /** The host looks at its next slot: the phase bit shows exactly whether an entry is there, and
        what it reads are the posted entries in order, over any number of wraps. */
    method HostPoll() returns (r: Option<Req>)
      requires Valid()
      modifies this`hostNext, this`hostPhase, this`read
      ensures Valid()
      ensures |old(read)| < |posted| ==> r == Some(posted[|old(read)|]) && read == old(read) + [posted[|old(read)|]]
      ensures |old(read)| == |posted| ==> r == None && read == old(read)
    {
      hide RingOk, PhaseOf;
      DivMod(|read|, ring.Length);
      PhaseTells(ring[..], posted, |read|);
      if ring[hostNext].phase != hostPhase {
        return None;
      }
      r := Some(ring[hostNext].req);
      NextIndex(|read|, ring.Length);
      NextPhase(|read|, ring.Length);
      read := read + [posted[|read|]];
      hostNext := hostNext + 1;
      if hostNext >= ring.Length {
        hostNext, hostPhase := 0, !hostPhase;
      }
    }
  }

  /** A ring of three is full with two entries, and further completions wait. */
  method FullExample() returns (q: CompletionQueue)
    ensures fresh(q) && fresh(q.ring) && q.Valid() && q.Full() && q.ring.Length == 3
    ensures q.posted == [1, 2] && q.pending == [3, 4] && q.read == [] && q.freed == 0
  {
    hide RingOk, PhaseOf;
    q := new CompletionQueue(3);
    q.Enqueue(1);
    assert q.posted == [1];
    q.Enqueue(2);
    assert q.posted == [1, 2];
    q.Enqueue(3);
    q.Enqueue(4);
    assert q.completions == [1, 2, 3, 4] && q.pending == q.completions[2..];
  }

  /** Then the host reads the two posted ones and frees both at once: one of the two pending ones is
      posted, and the other stays behind for good. */
  method StuckExample() returns (q: CompletionQueue)
    ensures q.Valid() && q.Stuck() && q.posted == [1, 2, 3] && q.pending == [4]
  {
    hide RingOk, PhaseOf;
    q := FullExample();
    ghost var all := q.completions;
    var a := q.HostPoll();
    var b := q.HostPoll();
    q.Doorbell(2, 2);
    assert all == [1, 2, 3, 4] && q.posted == all[..3] && q.pending == all[3..];
  }
}
