/** What a timeout sweep does to the requests (core/ox-mq.c): which of the expired ones are completed
    on behalf of their owner, which are given up, and that nothing else moves. */
module OxMqSweep {
  import opened Sequences
  import opened OxMq

  /** The entry holds a request whose pointer is not null. */
  ghost predicate NonNull(q: Queue, e: nat) {
    e < |q.ent| && q.ent[e].req.Some? && q.ent[e].req.value.ptr != 0
  }

  ghost function NumNonNull(q: Queue, es: seq<nat>): nat {
    if es == [] then 0 else NumNonNull(q, es[..|es| - 1]) + if NonNull(q, es[|es| - 1]) then 1 else 0
  }

  /** The list is closed from its last entry to its first: the j-th one finds a completion entry when
      fewer entries behind it took one than were free. */
  ghost predicate Posted(q: Queue, es: seq<nat>, j: nat, complete: bool)
    requires j < |es|
  {
    complete && NonNull(q, es[j]) && NumNonNull(q, es[j + 1..]) < |q.cqFree|
  }

  /** The request is in a completion entry on the list of the CQ thread. */
  ghost predicate InCompletion(q: Queue, r: Req) {
    r.ticket < |q.home| && q.home[r.ticket].AtCq? && q.home[r.ticket].c in q.cqUsed &&
    q.home[r.ticket].c < |q.cq| && q.cq[q.home[r.ticket].c].req == Some(r)
  }

  ghost predicate GivenUp(q: Queue, r: Req) {
    r.ticket < |q.home| && q.home[r.ticket] == Lost
  }

  /** Of the entries `es`, exactly the posted ones have their request in a completion entry, and the
      requests of the others are given up. */
  ghost predicate Closed(q: Queue, q': Queue, es: seq<nat>, complete: bool) {
    forall j :: 0 <= j < |es| ==> ClosedAt(q, q', es, j, complete)
  }

  ghost predicate ClosedAt(q: Queue, q': Queue, es: seq<nat>, j: nat, complete: bool)
    requires j < |es|
  {
    es[j] < |q.ent| && q.ent[es[j]].req.Some? &&
    if Posted(q, es, j, complete) then InCompletion(q', q.ent[es[j]].req.value)
    else GivenUp(q', q.ent[es[j]].req.value)
  }

  ghost predicate HeldBy(q: Queue, es: seq<nat>, i: nat) {
    exists j :: 0 <= j < |es| && es[j] < |q.ent| && q.ent[es[j]].req.Some? && q.ent[es[j]].req.value.ticket == i
  }

  /** No other request moves, and what was on the list of the CQ thread stays in front of it. */
  ghost predicate OthersStay(q: Queue, q': Queue, es: seq<nat>) {
    && |q'.home| == |q.home| && q'.accepted == q.accepted && |q'.cq| == |q.cq|
    && (forall i :: 0 <= i < |q.home| && !HeldBy(q, es, i) ==> q'.home[i] == q.home[i])
    && q.cqUsed <= q'.cqUsed && forall c :: c in q.cqUsed && c < |q.cq| ==> q'.cq[c] == q.cq[c]
  }

  /** One entry is closed. */
  ghost predicate OneClosed(q: Queue, q': Queue, e: nat, complete: bool)
    requires e < |q.ent| && q.ent[e].req.Some?
  {
    var r := q.ent[e].req.value;
    && OnlyEntry(q, q', e) && q'.ent[e].req == q.ent[e].req && q'.sqWait == q.sqWait && r.ticket < |q.home|
    && if complete && NonNull(q, e) && q.cqFree != [] then
         && q.cqFree[0] < |q.cq| && q'.home[r.ticket] == AtCq(q.cqFree[0])
         && q'.cqFree == q.cqFree[1..] && q'.cqUsed == q.cqUsed + [q.cqFree[0]]
         && q'.cq == q.cq[q.cqFree[0] := CEntry(Some(r), CUsed)]
       else
         q'.home[r.ticket] == Lost && q'.cqFree == q.cqFree && q'.cqUsed == q.cqUsed && q'.cq == q.cq
  }

  lemma CloseOneOutcome(q: Queue, e: nat, complete: bool)
    requires Core(q) && Quiet(q) && Pending(q, e)
    ensures OneClosed(q, CloseOne(q, e, complete), e, complete)
  {
    assert EntryOk(q, e);
    CqHead(q);
    if complete {
      PostOutcome(q, e);
    } else {
      hide Core, Quiet, EntryOk;
    }
  }

  /** A timed-out entry is completed on behalf of its owner and closed. */
  lemma PostOutcome(q: Queue, e: nat)
    requires Quiet(q) && Pending(q, e) && EntryOk(q, e) && (q.cqFree != [] ==> q.cqFree[0] < |q.cq|)
    ensures OneClosed(q, CloseOne(q, e, true), e, true)
  {
    hide Quiet, EntryOk, DoCompleteAll, Remove;
    CompleteAllForm(q, e);
  }

  lemma {:induction false} CloseOutcome(q: Queue, es: seq<nat>, complete: bool)
    requires Sweeping(q, es)
    ensures var q' := CloseAll(q, es, complete);
            Closed(q, q', es, complete) && OthersStay(q, q', es) && q'.sqWait == q.sqWait
    decreases |es|
  {
    if es != [] {
      var n := |es| - 1;
      var e, rest, q1 := es[n], es[..n], CloseOne(q, es[n], complete);
      assert Pending(q, e);
      CloseOneOutcome(q, e, complete);
      CloseStep(q, es, complete);
      CloseOutcome(q1, rest, complete);
      Distinct(q, es);
      CqApart(q);
      hide Core, Quiet, CloseOne, CloseAll, Sweeping;
      Combine(q, q1, CloseAll(q1, rest, complete), es, complete);
    }
  }

  /** The entries of the list hold different requests. */
  ghost predicate Tickets(q: Queue, es: seq<nat>) {
    && (forall j :: 0 <= j < |es| ==> es[j] < |q.ent| && q.ent[es[j]].req.Some?)
    && (forall j, k :: 0 <= j < k < |es| ==>
          es[j] != es[k] && q.ent[es[j]].req.value.ticket != q.ent[es[k]].req.value.ticket)
  }

  lemma Distinct(q: Queue, es: seq<nat>)
    requires Sweeping(q, es)
    ensures Tickets(q, es)
  {
    hide Core, Quiet;
    forall j | 0 <= j < |es| ensures es[j] < |q.ent| && q.ent[es[j]].req.Some? {
      assert Pending(q, es[j]);
    }
    forall j, k | 0 <= j < k < |es|
      ensures es[j] != es[k] && q.ent[es[j]].req.value.ticket != q.ent[es[k]].req.value.ticket
    {
      assert Pending(q, es[j]) && Pending(q, es[k]);
      OtherTicket(q, es[j], es[k]);
    }
  }

  lemma CqApart(q: Queue)
    requires Core(q)
    ensures q.cqFree != [] ==> q.cqFree[0] !in q.cqUsed
  {
    assert q.cqFree != [] ==> q.cqFree[0] in q.cqFree;
  }

  /** Closing the last entry and then the rest. */
  lemma Combine(q: Queue, q1: Queue, q': Queue, es: seq<nat>, complete: bool)
    requires es != [] && Tickets(q, es) && (q.cqFree != [] ==> q.cqFree[0] !in q.cqUsed)
    requires OneClosed(q, q1, es[|es| - 1], complete)
    requires Closed(q1, q', es[..|es| - 1], complete) && OthersStay(q1, q', es[..|es| - 1])
    ensures Closed(q, q', es, complete) && OthersStay(q, q', es)
  {
    var n := |es| - 1;
    var e, rest := es[n], es[..n];
    assert forall x :: 0 <= x < |q.ent| ==> q1.ent[x].req == q.ent[x].req;
    LastStays(q, q1, q', es);
    forall j | 0 <= j < |es| ensures ClosedAt(q, q', es, j, complete) {
      if j < n {
        assert ClosedAt(q1, q', rest, j, complete);
        PostedSame(q, q1, es, j, complete);
      } else {
        LastClosed(q, q1, q', es, complete);
      }
    }
  }

  lemma LastClosed(q: Queue, q1: Queue, q': Queue, es: seq<nat>, complete: bool)
    requires es != [] && es[|es| - 1] < |q.ent| && q.ent[es[|es| - 1]].req.Some?
    requires OneClosed(q, q1, es[|es| - 1], complete) && OthersStay(q1, q', es[..|es| - 1])
    requires var i := q.ent[es[|es| - 1]].req.value.ticket; i < |q.home| ==> q'.home[i] == q1.home[i]
    ensures ClosedAt(q, q', es, |es| - 1, complete)
  {
    assert es[|es|..] == [];
    assert q.cqFree != [] ==> q.cqFree[0] in q.cqUsed + [q.cqFree[0]];
  }

  /** Whether an earlier entry is posted is decided the same way after the last one was closed. */
  lemma PostedSame(q: Queue, q1: Queue, es: seq<nat>, j: nat, complete: bool)
    requires j < |es| - 1 && es[|es| - 1] < |q.ent| && q.ent[es[|es| - 1]].req.Some?
    requires OneClosed(q, q1, es[|es| - 1], complete) && q1.ent[es[|es| - 1]].req == q.ent[es[|es| - 1]].req
    ensures Posted(q1, es[..|es| - 1], j, complete) <==> Posted(q, es, j, complete)
    ensures es[j] < |q.ent| ==> q1.ent[es[j]].req == q.ent[es[j]].req
  {
    var n := |es| - 1;
    var e, rest := es[n], es[..n];
    assert forall x :: 0 <= x < |q.ent| ==> q1.ent[x].req == q.ent[x].req;
    SameCount(q, q1, rest[j + 1..]);
    assert es[j + 1..][..n - j - 1] == rest[j + 1..];
    assert NumNonNull(q, es[j + 1..]) == NumNonNull(q1, rest[j + 1..]) + if NonNull(q, e) then 1 else 0;
  }

  lemma LastStays(q: Queue, q1: Queue, q': Queue, es: seq<nat>)
    requires es != [] && Tickets(q, es)
    requires OnlyEntry(q, q1, es[|es| - 1]) && q1.ent[es[|es| - 1]].req == q.ent[es[|es| - 1]].req
    requires |q1.cq| == |q.cq| && q.cqUsed <= q1.cqUsed
    requires forall c :: c in q.cqUsed && c < |q.cq| ==> q1.cq[c] == q.cq[c]
    requires OthersStay(q1, q', es[..|es| - 1])
    ensures OthersStay(q, q', es)
    ensures var i := q.ent[es[|es| - 1]].req.value.ticket; i < |q.home| ==> q'.home[i] == q1.home[i]
  {
    var n := |es| - 1;
    var e := es[n];
    forall i | 0 <= i < |q.home| && !HeldBy(q, es, i) ensures q'.home[i] == q.home[i] {
      HeldInRest(q, q1, es, i);
    }
    HeldInRest(q, q1, es, q.ent[e].req.value.ticket);
    forall c | c in q.cqUsed && c < |q.cq| ensures q'.cq[c] == q.cq[c] {
      assert c in q1.cqUsed;
    }
  }

  /** A request of the rest is one of the list, and not the last one's. */
  lemma HeldInRest(q: Queue, q1: Queue, es: seq<nat>, i: nat)
    requires es != [] && Tickets(q, es)
    requires OnlyEntry(q, q1, es[|es| - 1]) && q1.ent[es[|es| - 1]].req == q.ent[es[|es| - 1]].req
    ensures HeldBy(q1, es[..|es| - 1], i) ==> HeldBy(q, es, i) && i != q.ent[es[|es| - 1]].req.value.ticket
    ensures !HeldBy(q, es, i) ==> i != q.ent[es[|es| - 1]].req.value.ticket
  {
    var n := |es| - 1;
    var rest := es[..n];
    if HeldBy(q1, rest, i) {
      var j :| 0 <= j < |rest| && rest[j] < |q1.ent| && q1.ent[rest[j]].req.Some? && q1.ent[rest[j]].req.value.ticket == i;
      assert es[j] == rest[j] && es[j] != es[n];
    }
    assert es[n] < |q.ent| && q.ent[es[n]].req.Some?;
  }

  lemma {:induction false} SameCount(q: Queue, q': Queue, es: seq<nat>)
    requires |q'.ent| == |q.ent| && forall x :: 0 <= x < |q.ent| ==> q'.ent[x].req == q.ent[x].req
    ensures NumNonNull(q', es) == NumNonNull(q, es)
  {
    if es != [] { SameCount(q, q', es[..|es| - 1]); }
  }

  // ----- Taking the expired entries off the wait list -----

  /** The list without the members of `out`, in order. */
  ghost function Keep(s: seq<nat>, out: set<nat>): seq<nat> {
    if s == [] then [] else (if s[0] in out then [] else [s[0]]) + Keep(s[1..], out)
  }

  lemma {:induction false} KeepSame(s: seq<nat>, out: set<nat>, out': set<nat>)
    requires forall x :: x in s ==> (x in out <==> x in out')
    ensures Keep(s, out) == Keep(s, out')
  {
    if s != [] {
      assert s[0] in s && forall x :: x in s[1..] ==> x in s;
      KeepSame(s[1..], out, out');
    }
  }

  lemma {:induction false} KeepMembers(s: seq<nat>, out: set<nat>)
    ensures forall x :: x in Keep(s, out) <==> x in s && x !in out
  {
    if s != [] {
      KeepMembers(s[1..], out);
      assert s == [s[0]] + s[1..];
    }
  }

  lemma {:induction false} KeepRemove(s: seq<nat>, out: set<nat>, e: nat)
    requires NoDup(s) && e in s && e !in out
    ensures Remove(Keep(s, out), e) == Keep(s, out + {e})
  {
    PopFacts(s);
    if s[0] == e {
      assert Keep(s, out) == [e] + Keep(s[1..], out);
      KeepSame(s[1..], out, out + {e});
    } else {
      assert s == [s[0]] + s[1..];
      KeepRemove(s[1..], out, e);
      var k, k' := Keep(s[1..], out), Keep(s[1..], out + {e});
      if s[0] in out {
        assert Keep(s, out) == k && Keep(s, out + {e}) == k';
      } else {
        assert Keep(s, out) == [s[0]] + k && ([s[0]] + k)[1..] == k && Keep(s, out + {e}) == [s[0]] + k';
      }
    }
  }

  lemma {:induction false} KeepAll(s: seq<nat>)
    ensures Keep(s, {}) == s
  {
    if s != [] {
      KeepAll(s[1..]);
    }
  }

  ghost function SetOf(es: seq<nat>): set<nat> { set x | x in es }

  /** Timing out moves no request, and takes exactly the given entries off the wait list. */
  ghost predicate TimedOutOf(q: Queue, q': Queue, es: seq<nat>) {
    && q'.home == q.home && q'.accepted == q.accepted && q'.cq == q.cq && q'.cqFree == q.cqFree && q'.cqUsed == q.cqUsed
    && |q.ent| <= |q'.ent| && (forall x :: 0 <= x < |q.ent| ==> q'.ent[x].req == q.ent[x].req)
    && q'.sqWait == Keep(q.sqWait, SetOf(es))
  }

  lemma {:induction false} TimeOutOutcome(q: Queue, es: seq<nat>)
    requires Sweeping(q, []) && NoDup(es) && NoDup(q.sqWait)
    requires forall j :: 0 <= j < |es| ==> es[j] < |q.ent| && q.ent[es[j]].at == InWait(Idle) && es[j] in q.sqWait
    ensures TimedOutOf(q, TimeOutAll(q, es), es)
    decreases |es|
  {
    hide Sweeping, Keep;
    if es == [] {
      KeepAll(q.sqWait);
      assert SetOf(es) == {};
    } else {
      var rest, e := es[..|es| - 1], es[|es| - 1];
      var q1 := TimeOutAll(q, rest);
      TimeOutOutcome(q, rest);
      TimeOutAllInv(q, rest);
      assert e !in rest && es[|es| - 1] == e;
      assert q1.ent[e] == q.ent[e];
      assert e in q.sqWait && e !in SetOf(rest);
      KeepRemove(q.sqWait, SetOf(rest), e);
      assert SetOf(es) == SetOf(rest) + {e};
      TimeOutOne(q, q1, rest, es, e);
    }
  }

  lemma TimeOutOne(q: Queue, q1: Queue, rest: seq<nat>, es: seq<nat>, e: nat)
    requires TimedOutOf(q, q1, rest) && e < |q.ent| && q1.ent[e].at == InWait(Idle)
    requires Remove(q1.sqWait, e) == Keep(q.sqWait, SetOf(es))
    ensures TimedOutOf(q, TimeOut(q1, e), es)
  {
  }

  // ----- The sweep -----

  /** The expired requests: with `complete`, those that find a completion entry are in it, the rest is
      given up; without, all are given up. No other request moves. Exactly the expired entries leave the
      wait list. */
  ghost predicate Swept(q: Queue, q': Queue, expired: set<nat>, complete: bool) {
    var es := Filter(q.sqWait, expired);
    Closed(q, q', es, complete) && OthersStay(q, q', es) && q'.sqWait == Keep(q.sqWait, expired)
  }

  lemma SweepOutcome(q: Queue, expired: set<nat>, complete: bool)
    requires Inv(q) && Quiet(q)
    ensures Swept(q, DoSweep(q, expired, complete), expired, complete)
  {
    var es := Filter(q.sqWait, expired);
    FilterFacts(q.sqWait, expired);
    WaitingIdle(q, es);
    TimeOutOutcome(q, es);
    TimeOutAllInv(q, es);
    var q1 := TimeOutAll(q, es);
    CloseOutcome(q1, es, complete);
    KeepSame(q.sqWait, expired, SetOf(es));
    hide Inv, Quiet, TimeOutAll, CloseAll, Sweeping, Filter;
    ThroughTimeOut(q, q1, CloseAll(q1, es, complete), es, complete);
  }

  lemma WaitingIdle(q: Queue, es: seq<nat>)
    requires Inv(q) && Quiet(q) && forall e :: e in es ==> e in q.sqWait
    ensures NoDup(q.sqWait) && Sweeping(q, [])
    ensures forall j :: 0 <= j < |es| ==> es[j] < |q.ent| && q.ent[es[j]].at == InWait(Idle) && es[j] in q.sqWait
  {
    forall j | 0 <= j < |es| ensures es[j] < |q.ent| && q.ent[es[j]].at == InWait(Idle) && es[j] in q.sqWait {
      assert es[j] in es;
    }
  }

  lemma ThroughTimeOut(q: Queue, q1: Queue, q': Queue, es: seq<nat>, complete: bool)
    requires TimedOutOf(q, q1, es) && Closed(q1, q', es, complete) && OthersStay(q1, q', es)
    requires forall j :: 0 <= j < |es| ==> es[j] < |q.ent|
    ensures Closed(q, q', es, complete) && OthersStay(q, q', es)
  {
    forall j | 0 <= j < |es| ensures ClosedAt(q, q', es, j, complete) {
      assert ClosedAt(q1, q', es, j, complete);
      CountThrough(q, q1, es[j + 1..]);
    }
    forall i | 0 <= i < |q.home| && !HeldBy(q, es, i) ensures q'.home[i] == q.home[i] {
      assert HeldBy(q1, es, i) ==> HeldBy(q, es, i);
    }
  }

  lemma {:induction false} CountThrough(q: Queue, q': Queue, es: seq<nat>)
    requires |q.ent| <= |q'.ent| && forall x :: 0 <= x < |q.ent| ==> q'.ent[x].req == q.ent[x].req
    requires forall j :: 0 <= j < |es| ==> es[j] < |q.ent|
    ensures NumNonNull(q', es) == NumNonNull(q, es)
  {
    if es != [] { CountThrough(q, q', es[..|es| - 1]); }
  }

  lemma {:induction false} CountBound(q: Queue, es: seq<nat>)
    ensures NumNonNull(q, es) <= |es|
  {
    if es != [] { CountBound(q, es[..|es| - 1]); }
  }

  /** With as many free completion entries as expired entries, no request with a pointer is given up. */
  lemma EnoughRoom(q: Queue, expired: set<nat>, j: nat)
    requires Inv(q) && Quiet(q) && j < |Filter(q.sqWait, expired)| <= |q.cqFree|
    ensures var e := Filter(q.sqWait, expired)[j]; var q' := DoSweep(q, expired, true);
            NonNull(q, e) ==> InCompletion(q', q.ent[e].req.value)
  {
    var es := Filter(q.sqWait, expired);
    SweepOutcome(q, expired, true);
    hide Inv, Quiet, DoSweep, Filter;
    CountBound(q, es[j + 1..]);
    assert ClosedAt(q, DoSweep(q, expired, true), es, j, true);
  }

  // ----- A completion call -----

  /** Completing a waiting entry: its request goes to the end of the list of the CQ thread, and the entry
      from the wait list to the free list. */
  lemma CompletePosts(q: Queue, e: nat)
    requires Inv(q) && Quiet(q) && e in q.sqWait && NonNull(q, e) && q.cqFree != []
    ensures var q' := DoCompleteAll(q, e);
            && InCompletion(q', q.ent[e].req.value) && q'.cqUsed == q.cqUsed + [q.cqFree[0]] && q'.cqFree == q.cqFree[1..]
            && q'.home[q.ent[e].req.value.ticket] == AtCq(q.cqFree[0])
            && q'.sqWait == Remove(q.sqWait, e) && q'.sqFree == q.sqFree + [e]
            && q'.sqUsed == q.sqUsed && q'.delivered == q.delivered
  {
    assert EntryOk(q, e);
    CqHead(q);
    CompleteAllForm(q, e);
    hide Core, Quiet, DoCompleteAll;
  }
}
