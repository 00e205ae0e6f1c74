/** The calls of core/ox-mq.c on one queue, each run without interruption: what a call does is the
    composition of its mutex regions. */
module OxMqEngine {
  import opened Sequences
  import opened OxMq
  import opened OxMqSweep

  class Engine {
    var q: Queue

    constructor (size: nat)
      ensures q == Init(size) && Inv(q) && Quiet(q)
    {
      InitInv(size);
      q := Init(size);
    }

    /** ox_mq_submit_req: a full queue rejects the request, otherwise it is queued last. */
    method SubmitReq(ptr: nat) returns (ret: bool)
      requires Inv(q) && Quiet(q)
      modifies this
      ensures Inv(q) && Quiet(q) && (ret <==> old(q).sqFree != [])
      ensures !ret ==> q == old(q)
      ensures ret ==> q == DoSubmitEnqueue(DoSubmitTake(old(q), ptr), old(q).sqFree[0])
                      && q.accepted == old(q).accepted + [Req(|old(q).accepted|, ptr)]
      ensures ret ==> q.sqUsed == old(q).sqUsed + [old(q).sqFree[0]] && old(q).sqFree[0] < |q.ent|
                      && q.ent[old(q).sqFree[0]].req == Some(Req(|old(q).accepted|, ptr))
      ensures SameCqSide(old(q), q) && q.sqHeld == old(q).sqHeld && q.current == old(q).current
    {
      if q.sqFree == [] {
        return false;
      }
      var e := q.sqFree[0];
      assert e in q.sqFree;
      SubmitTakeInv(q, ptr);
      SubmitEnqueueInv(DoSubmitTake(q, ptr), e);
      hide Core;
      q := q.(sqFree := q.sqFree[1..], ent := q.ent[e := q.ent[e].(at := WithSubmitter(ptr))]);
      var r := Req(|q.accepted|, ptr);
      q := q.(ent := q.ent[e := q.ent[e].(req := Some(r), status := Queued, at := InUsed)]);
      q := q.(sqUsed := q.sqUsed + [e], accepted := q.accepted + [r], home := q.home + [AtSq(e)]);
      ret := true;
    }

    /** One turn of the SQ thread up to the call of the SQ function. */
    method SqTurn() returns (e: Option<nat>)
      requires Inv(q) && Quiet(q) && q.sqHeld.None? && q.current.None?
      modifies this
      ensures Inv(q) && Quiet(q) && q == DoSqWait(DoSqDequeue(old(q)))
      ensures e.None? <==> old(q).sqUsed == []
      ensures e.Some? ==> e.value == old(q).sqUsed[0] && e.value < |q.ent| && q.ent[e.value].at == InWait(Idle)
      ensures e.Some? ==> e.value < |old(q).ent| && q.ent[e.value].req == old(q).ent[e.value].req && e.value in q.sqWait
      ensures SameCqSide(old(q), q) && q.accepted == old(q).accepted
    {
      if q.sqUsed == [] {
        return None;
      }
      var x := q.sqUsed[0];
      assert x in q.sqUsed;
      SqDequeueInv(q);
      SqWaitInv(DoSqDequeue(q));
      hide Core;
      q := q.(sqUsed := q.sqUsed[1..], ent := q.ent[x := q.ent[x].(at := WithSq)], sqHeld := Some(x));
      q := q.(ent := q.ent[x := q.ent[x].(status := Waiting, at := InWait(Idle))]);
      q := q.(sqHeld := None, sqWait := q.sqWait + [x], current := Some(x));
      e := Some(x);
    }

    /** ox_mq_complete_req for an entry that was handed to the SQ function. */
    method CompleteReq(e: nat) returns (ret: bool)
      requires e < |q.ent| && EntryOk(q, e) && CqLists(q) && (q.ent[e].at == InWait(Idle) || q.ent[e].at == Out(Idle))
      modifies this
      ensures q == DoCompleteAll(old(q), e)
      ensures ret <==> !Refused(old(q).ent[e]) && old(q).cqFree != []
    {
      CqHead(q);
      CompleteAllForm(q, e);
      hide DoCompleteAll;
      var x := q.ent[e];
      if x.req.None? || x.req.value.ptr == 0 || x.status == TimeoutBack {
        assert q.ent[e := x] == q.ent;
        return false;
      }
      if x.status == TimeoutCompleted {
        q := q.(ent := q.ent[e := x.(status := TimeoutBack, at := if x.ext then Gone else x.at)]);
        return false;
      }
      if q.cqFree == [] {
        return false;
      }
      var c := q.cqFree[0];
      q := q.(cqFree := q.cqFree[1..], cq := q.cq[c := CEntry(x.req, CTaken(e))], home := q.home[x.req.value.ticket := AtCq(c)]);
      if x.status == Waiting {
        q := q.(sqWait := Remove(q.sqWait, e));
        q := q.(sqFree := q.sqFree + [e], ent := q.ent[e := x.(req := None, status := Free, at := InFree)]);
      }
      q := q.(cqUsed := q.cqUsed + [c], cq := q.cq[c := CEntry(x.req, CUsed)]);
      assert q.cq == old(q).cq[c := CEntry(x.req, CUsed)];
      ret := true;
    }

    /** One turn of the CQ thread, with the request handed to the CQ function. */
    method CqTurn() returns (r: Option<Req>)
      requires Inv(q) && Quiet(q) && q.cqStage.CqIdle?
      modifies this
      ensures Inv(q) && Quiet(q) && q == DoCqDeliver(DoCqRelease(DoCqDequeue(old(q))))
      ensures r.None? <==> old(q).cqUsed == []
      ensures r.Some? ==> q.delivered == old(q).delivered + [r.value]
                          && old(q).cqUsed[0] < |old(q).cq| && r == old(q).cq[old(q).cqUsed[0]].req
    {
      if q.cqUsed == [] {
        return None;
      }
      ghost var was := q;
      CqTurnForm(q);
      CqTurnInv(q);
      hide Core, Quiet, DoCqDequeue, DoCqRelease, DoCqDeliver;
      var c := q.cqUsed[0];
      var x := q.cq[c].req.value;
      q := q.(cqUsed := q.cqUsed[1..], cq := q.cq[c := q.cq[c].(at := CWithCq)]);
      q := q.(cq := q.cq[c := CEntry(None, CFree)], cqFree := q.cqFree + [c], home := q.home[x.ticket := AtCqThread]);
      q := q.(delivered := q.delivered + [x], home := q.home[x.ticket := DoneAt(|q.delivered|)]);
      assert q == Turned(was);
      r := Some(x);
    }

    /** ox_mq_process_to_entry: the entry leaves the wait list, a new one joins the free list. */
    method ProcessToEntry(e: nat)
      requires e < |q.ent| && q.ent[e].at == InWait(Idle)
      modifies this
      ensures q == TimeOut(old(q), e)
    {
      q := q.(sqWait := Remove(q.sqWait, e));
      q := q.(ent := q.ent[e := q.ent[e].(status := TimedOut, at := Out(Idle))]);
      q := q.(sqFree := q.sqFree + [|q.ent|], ent := q.ent + [FREE_ENTRY.(ext := true)]);
    }

    /** The waiting entries that have expired are taken off the list, in order. */
    method TimeOutExpired(expired: set<nat>) returns (toList: seq<nat>)
      requires Inv(q) && Quiet(q)
      modifies this
      ensures toList == Filter(old(q).sqWait, expired) && q == TimeOutAll(old(q), toList)
    {
      hide Inv, Quiet, TimeOut;
      var wait := q.sqWait;
      toList := [];
      SweepStart(q, expired);
      assert wait[..0] == [];
      for i := 0 to |wait|
        invariant toList == Filter(wait[..i], expired) && q == TimeOutAll(old(q), toList)
      {
        assert wait[..i + 1][..i] == wait[..i];
        if wait[i] in expired {
          StillWaiting(old(q), expired, i);
          assert (toList + [wait[i]])[..|toList|] == toList;
          ProcessToEntry(wait[i]);
          toList := toList + [wait[i]];
        }
      }
      assert wait[..|wait|] == wait;
    }

    /** The timed-out entries are completed, if asked to, and closed, from the last to the first. */
    method CloseList(toList: seq<nat>, complete: bool)
      requires Sweeping(q, toList)
      modifies this
      ensures q == CloseAll(old(q), toList, complete)
    {
      hide Sweeping, EntryOk, CqLists, DoCompleteAll, Close;
      var i := |toList|;
      assert toList[..i] == toList;
      while i != 0
        invariant 0 <= i <= |toList| && Sweeping(q, toList[..i])
        invariant CloseAll(q, toList[..i], complete) == CloseAll(old(q), toList, complete)
      {
        i := i - 1;
        var e := toList[i];
        assert toList[..i + 1][..i] == toList[..i] && toList[..i + 1][i] == e;
        PendingEntry(q, toList[..i + 1]);
        CloseStep(q, toList[..i + 1], complete);
        if complete {
          var ret := CompleteReq(e);
        }
        SetClosed(e);
      }
      assert CloseAll(q, toList[..0], complete) == q;
    }

    /** ox_mq_check_queue_to: one timeout sweep over the queue. */
    method CheckQueueTo(expired: set<nat>, complete: bool)
      requires Inv(q) && Quiet(q)
      modifies this
      ensures Inv(q) && Quiet(q) && q == DoSweep(old(q), expired, complete) && Swept(old(q), q, expired, complete)
    {
      hide Inv, Quiet, Sweeping, Swept;
      SweepOutcome(q, expired, complete);
      SweepInv(q, expired, complete);
      AfterTimeOut(q, expired);
      var toList := TimeOutExpired(expired);
      CloseList(toList, complete);
    }

    /** A request with a pointer on an idle queue, completed by the SQ function at once: it is delivered. */
    method RoundTrip(ptr: nat) returns (r: Option<Req>)
      requires Inv(q) && Quiet(q) && ptr != 0 && q.sqFree != [] && q.cqFree != []
      requires q.sqUsed == [] && q.sqHeld.None? && q.current.None? && q.cqUsed == [] && q.cqStage.CqIdle?
      modifies this
      ensures Inv(q) && Quiet(q) && r == Some(Req(|old(q).accepted|, ptr)) && q.delivered == old(q).delivered + [r.value]
    {
      hide Quiet, Core, Settled;
      var ok := SubmitReq(ptr);
      var e := SqTurn();
      CompletePosts(q, e.value);
      WaitingEntry(q, e.value);
      CompleteAllInv(q, e.value);
      CompleteAllFrame(q, e.value);
      hide DoCompleteAll;
      ok := CompleteReq(e.value);
      r := CqTurn();
    }

    /** The entry is marked as completed by timeout; a request that was not posted is given up. */
    method SetClosed(e: nat)
      modifies this
      ensures q == Close(old(q), e)
    {
      if e < |q.ent| && q.ent[e].req.Some? && q.ent[e].req.value.ticket < |q.home| {
        var i := q.ent[e].req.value.ticket;
        if q.home[i] == AtSq(e) {
          q := q.(home := q.home[i := Lost]);
        }
        q := q.(ent := q.ent[e := q.ent[e].(status := TimeoutCompleted)]);
      }
    }
  }

  lemma SweepStart(q: Queue, expired: set<nat>)
    requires Inv(q) && Quiet(q)
    ensures Sweeping(q, []) && TimeOutAll(q, []) == q && Filter([], expired) == []
  {
  }

  /** An entry not swept yet is as it was. */
  lemma StillWaiting(q: Queue, expired: set<nat>, i: nat)
    requires Inv(q) && Quiet(q) && i < |q.sqWait|
    ensures var q1 := TimeOutAll(q, Filter(q.sqWait[..i], expired));
            q.sqWait[i] < |q1.ent| && q1.ent[q.sqWait[i]].at == InWait(Idle)
  {
    var es := Filter(q.sqWait[..i], expired);
    FilterFacts(q.sqWait[..i], expired);
    assert forall j :: 0 <= j < |es| ==> es[j] in es;
    assert q.sqWait[i] in q.sqWait && q.sqWait[i] !in q.sqWait[..i];
    assert forall e :: e in q.sqWait[..i] ==> e in q.sqWait;
    SweepStart(q, expired);
    TimeOutAllInv(q, es);
  }

  lemma AfterTimeOut(q: Queue, expired: set<nat>)
    requires Inv(q) && Quiet(q)
    ensures var es := Filter(q.sqWait, expired); Sweeping(TimeOutAll(q, es), es)
  {
    var es := Filter(q.sqWait, expired);
    FilterFacts(q.sqWait, expired);
    assert forall j :: 0 <= j < |es| ==> es[j] in es;
    SweepStart(q, expired);
    TimeOutAllInv(q, es);
  }

  lemma PendingEntry(q: Queue, es: seq<nat>)
    requires Sweeping(q, es) && es != []
    ensures var e := es[|es| - 1];
            e < |q.ent| && EntryOk(q, e) && CqLists(q) && q.ent[e].at == Out(Idle)
  {
    assert Pending(q, es[|es| - 1]);
  }

  /** The queue after a turn of the CQ thread that found a completion. */
  ghost function Turned(q: Queue): Queue
    requires q.cqUsed != [] && q.cqUsed[0] < |q.cq| && q.cq[q.cqUsed[0]].req.Some?
    requires q.cq[q.cqUsed[0]].req.value.ticket < |q.home|
  {
    var c := q.cqUsed[0];
    var x := q.cq[c].req.value;
    q.(cqUsed := q.cqUsed[1..], cq := q.cq[c := CEntry(None, CFree)], cqFree := q.cqFree + [c],
       home := q.home[x.ticket := DoneAt(|q.delivered|)], delivered := q.delivered + [x])
  }

  lemma CqTurnForm(q: Queue)
    requires Inv(q) && q.cqStage.CqIdle? && q.cqUsed != []
    ensures q.cqUsed[0] < |q.cq| && q.cq[q.cqUsed[0]].req.Some? && q.cq[q.cqUsed[0]].req.value.ticket < |q.home|
    ensures DoCqDeliver(DoCqRelease(DoCqDequeue(q))) == Turned(q)
  {
    var c := q.cqUsed[0];
    assert c in q.cqUsed && CqEntryOk(q, c);
    hide Core;
    var x := q.cq[c].req.value;
    var q1 := DoCqDequeue(q);
    var q2 := DoCqRelease(q1);
    assert q1.cq[c].req == Some(x);
    assert q2.cq == q.cq[c := CEntry(None, CFree)];
    assert DoCqDeliver(q2).home == q.home[x.ticket := DoneAt(|q.delivered|)];
  }

  lemma CqTurnInv(q: Queue)
    requires Inv(q) && Quiet(q) && q.cqStage.CqIdle?
    ensures var q' := DoCqDeliver(DoCqRelease(DoCqDequeue(q))); Inv(q') && Quiet(q')
  {
    CqDequeueInv(q);
    CqReleaseInv(DoCqDequeue(q));
    CqDeliverInv(DoCqRelease(DoCqDequeue(q)));
    hide Inv;
  }

  /** What submissions and the SQ thread leave alone. */
  ghost predicate SameCqSide(q: Queue, q': Queue) {
    q'.cq == q.cq && q'.cqFree == q.cqFree && q'.cqUsed == q.cqUsed && q'.cqStage == q.cqStage && q'.delivered == q.delivered
  }

  lemma WaitingEntry(q: Queue, e: nat)
    requires Inv(q) && Quiet(q) && e in q.sqWait
    ensures e < |q.ent| && EntryOk(q, e) && CqLists(q) && (q.cqFree != [] ==> q.cqFree[0] < |q.cq|)
  {
    assert q.cqFree != [] ==> q.cqFree[0] in q.cqFree;
  }
}
