/** Delivery order of a queue whose SQ function completes its request before it returns: requests
    are delivered in the order they were queued. A request that could not be completed (completion
    queue full, or a null pointer) is left waiting and overtaken. */
module OxMqSync {
  import opened Sequences
  import opened OxMq

  ghost predicate Filling(x: CEntry) { x.at.CFilled? || x.at.CPosting? }

  /** Only the SQ function completes, its own request, and it returns after its call has. */
  ghost predicate Allowed(q: Queue, a: Action) {
    && Fine(a)
    && (a.CompleteCheck? ==> q.current == Some(a.e))
    && (a.SqReturn? ==>
          && (forall c :: 0 <= c < |q.cq| ==> !Filling(q.cq[c]))
          && (forall e :: 0 <= e < |q.ent| && q.ent[e].at.InWait? ==> q.ent[e].at.stage.Idle?))
  }

  ghost function SyncStep(q: Queue, a: Action): Queue {
    if Allowed(q, a) then Step(q, a) else q
  }

  ghost function SyncRun(q: Queue, actions: seq<Action>): Queue {
    if actions == [] then q else SyncStep(SyncRun(q, actions[..|actions| - 1]), actions[|actions| - 1])
  }

  // ----- The requests on their way, oldest first -----

  ghost function ETicket(q: Queue, e: nat): nat {
    if e < |q.ent| && q.ent[e].req.Some? then q.ent[e].req.value.ticket else 0
  }

  ghost function CTicket(q: Queue, c: nat): nat {
    if c < |q.cq| && q.cq[c].req.Some? then q.cq[c].req.value.ticket else 0
  }

  ghost function Delivered(q: Queue): seq<nat> { seq(|q.delivered|, k requires 0 <= k < |q.delivered| => q.delivered[k].ticket) }
  ghost function AtCqTh(q: Queue): seq<nat> {
    match q.cqStage
    case CqIdle => []
    case CqGot(c) => [CTicket(q, c)]
    case CqReady(r) => [r.ticket]
  }
  ghost function InCq(q: Queue): seq<nat> { seq(|q.cqUsed|, j requires 0 <= j < |q.cqUsed| => CTicket(q, q.cqUsed[j])) }
  ghost function Posting(q: Queue, p: Option<nat>): seq<nat> { if p.None? then [] else [CTicket(q, p.value)] }
  ghost function Running(q: Queue): seq<nat> {
    if q.current.Some? && q.current.value < |q.ent| && q.ent[q.current.value].at.InWait? then [ETicket(q, q.current.value)] else []
  }
  ghost function Taken(q: Queue): seq<nat> { if q.sqHeld.None? then [] else [ETicket(q, q.sqHeld.value)] }
  ghost function Waiting(q: Queue): seq<nat> { seq(|q.sqUsed|, j requires 0 <= j < |q.sqUsed| => ETicket(q, q.sqUsed[j])) }

  ghost function Done(q: Queue): seq<nat> { Delivered(q) + AtCqTh(q) + InCq(q) }
  ghost function ToDo(q: Queue): seq<nat> { Running(q) + Taken(q) + Waiting(q) }
  ghost function Pipe(q: Queue, p: Option<nat>): seq<nat> { Done(q) + Posting(q, p) + ToDo(q) }

  ghost predicate IncreasingBelow(s: seq<nat>, bound: nat) {
    && Increasing(s)
    && (forall i :: 0 <= i < |s| ==> s[i] < bound)
  }

  /** `p` is the completion entry that the SQ function is filling or posting. */
  ghost predicate OneAtATime(q: Queue, p: Option<nat>) {
    && (p.Some? ==> p.value < |q.cq| && Filling(q.cq[p.value]) && q.current.Some? && Running(q) == [])
    && (forall c :: 0 <= c < |q.cq| && Filling(q.cq[c]) ==> p == Some(c))
    && (forall e :: 0 <= e < |q.ent| && q.ent[e].at.InWait? && !q.ent[e].at.stage.Idle? ==> q.current == Some(e))
    && (q.sqHeld.Some? ==> q.current.None?)
    && (forall e :: 0 <= e < |q.ent| ==> !q.ent[e].at.Out?)
  }

  ghost predicate SyncInv(q: Queue, p: Option<nat>) {
    Inv(q) && OneAtATime(q, p) && IncreasingBelow(Pipe(q, p), |q.accepted|)
  }

  ghost function NextPosting(q: Queue, p: Option<nat>, a: Action): Option<nat> {
    if a.CompleteMove? && CanMove(q, a.e) then Some(q.ent[a.e].at.stage.c)
    else if a.CompletePost? && a.c < |q.cq| && q.cq[a.c].at == CPosting then None
    else p
  }

  /** The step moves no request along. */
  ghost predicate SamePipe(q: Queue, q': Queue, p: Option<nat>) {
    && Done(q') == Done(q) && Posting(q', p) == Posting(q, p) && ToDo(q') == ToDo(q)
    && |q'.accepted| == |q.accepted|
  }

  lemma SubmitTakeSync(q: Queue, p: Option<nat>, ptr: nat)
    requires Lists(q) && OneAtATime(q, p) && Threads(q)
    ensures OneAtATime(DoSubmitTake(q, ptr), p) && SamePipe(q, DoSubmitTake(q, ptr), p)
  {
    SubmitTakeOne(q, p, ptr);
    hide NoDup, Pipe, SamePipe, OneAtATime;
    var q' := DoSubmitTake(q, ptr);
    assert q.sqFree != [] ==> q.sqFree[0] in q.sqFree;
    SameTickets(q, q', p);
  }

  lemma SubmitTakeOne(q: Queue, p: Option<nat>, ptr: nat)
    requires Lists(q) && OneAtATime(q, p)
    ensures OneAtATime(DoSubmitTake(q, ptr), p)
  {
    hide NoDup;
    assert q.sqFree != [] ==> q.sqFree[0] in q.sqFree;
  }

  lemma SubmitEnqueueSync(q: Queue, p: Option<nat>, e: nat)
    requires Lists(q) && OneAtATime(q, p) && Threads(q)
    ensures var q' := DoSubmitEnqueue(q, e);
            && OneAtATime(q', p) && Done(q') == Done(q) && Posting(q', p) == Posting(q, p)
            && (q' == q || (ToDo(q') == ToDo(q) + [|q.accepted|] && |q'.accepted| == |q.accepted| + 1))
  {
    SubmitEnqueueOne(q, p, e);
    hide OneAtATime, NoDup;
    var q' := DoSubmitEnqueue(q, e);
    if e < |q.ent| && q.ent[e].at.WithSubmitter? {
      SameDone(q, q', p);
      SubmitEnqueueToDo(q, e);
      hide Done, Posting, ToDo, Lists;
    }
  }

  lemma SubmitEnqueueOne(q: Queue, p: Option<nat>, e: nat)
    requires OneAtATime(q, p)
    ensures OneAtATime(DoSubmitEnqueue(q, e), p)
  {
  }

  lemma SubmitEnqueueToDo(q: Queue, e: nat)
    requires Lists(q) && Threads(q) && e < |q.ent| && q.ent[e].at.WithSubmitter?
    ensures ToDo(DoSubmitEnqueue(q, e)) == ToDo(q) + [|q.accepted|]
  {
    hide NoDup;
    var q' := DoSubmitEnqueue(q, e);
    assert forall j :: 0 <= j < |q.sqUsed| ==> q.sqUsed[j] in q.sqUsed;
    assert Waiting(q') == Waiting(q) + [|q.accepted|];
    assert Running(q') == Running(q) && Taken(q') == Taken(q);
  }

  /** The side of the CQ thread does not move. */
  lemma SameDone(q: Queue, q': Queue, p: Option<nat>)
    requires q'.cqUsed == q.cqUsed && q'.cq == q.cq && q'.delivered == q.delivered && q'.cqStage == q.cqStage
    ensures Done(q') == Done(q) && Posting(q', p) == Posting(q, p)
  {
    assert InCq(q') == InCq(q) && Delivered(q') == Delivered(q);
  }

  lemma SqDequeueSync(q: Queue, p: Option<nat>)
    requires Lists(q) && OneAtATime(q, p) && Threads(q)
    ensures OneAtATime(DoSqDequeue(q), p) && SamePipe(q, DoSqDequeue(q), p)
  {
    SqDequeueOne(q, p);
    hide OneAtATime, NoDup;
    SameDone(q, DoSqDequeue(q), p);
    SqDequeueToDo(q);
    hide Done, Posting, ToDo, Lists;
  }

  lemma SqDequeueOne(q: Queue, p: Option<nat>)
    requires OneAtATime(q, p) && Lists(q)
    ensures OneAtATime(DoSqDequeue(q), p)
  {
    hide NoDup;
    assert q.sqUsed != [] ==> q.sqUsed[0] in q.sqUsed;
  }

  lemma SqDequeueToDo(q: Queue)
    requires Lists(q)
    ensures ToDo(DoSqDequeue(q)) == ToDo(q)
  {
    var q' := DoSqDequeue(q);
    if q.sqHeld.None? && q.current.None? && q.sqUsed != [] && q.sqUsed[0] < |q.ent| {
      assert Taken(q') == [ETicket(q, q.sqUsed[0])];
      assert Waiting(q) == Taken(q') + Waiting(q');
      assert Running(q') == Running(q);
    }
  }

  lemma SqWaitSync(q: Queue, p: Option<nat>)
    requires Lists(q) && OneAtATime(q, p) && Threads(q)
    ensures OneAtATime(DoSqWait(q), p) && SamePipe(q, DoSqWait(q), p)
  {
    var q' := DoSqWait(q);
    if q.sqHeld.Some? {
      assert forall j :: 0 <= j < |q.sqUsed| ==> q.sqUsed[j] in q.sqUsed;
      assert Waiting(q') == Waiting(q) && Running(q') == Taken(q) && Running(q) == [];
    }
  }

  lemma SqReturnSync(q: Queue, p: Option<nat>)
    requires OneAtATime(q, p) && Allowed(q, SqReturn)
    ensures var q' := q.(current := None);
            && OneAtATime(q', p) && Done(q') == Done(q) && Posting(q', p) == Posting(q, p) && ToDo(q) == Running(q) + ToDo(q')
  {
    var q' := q.(current := None);
    SqReturnOne(q, p);
    hide OneAtATime, Allowed;
    SameDone(q, q', p);
    assert Waiting(q') == Waiting(q) && Taken(q') == Taken(q) && Running(q') == [];
    hide Done, Posting, Running, Taken, Waiting;
  }

  lemma SqReturnOne(q: Queue, p: Option<nat>)
    requires OneAtATime(q, p) && Allowed(q, SqReturn)
    ensures OneAtATime(q.(current := None), p)
  {
  }

  /** A step that changes neither the lists nor any request in an entry moves nothing along. */
  lemma SameTickets(q: Queue, q': Queue, p: Option<nat>)
    requires q'.sqUsed == q.sqUsed && q'.cqUsed == q.cqUsed && q'.delivered == q.delivered && q'.cqStage == q.cqStage
    requires q'.current == q.current && q'.sqHeld == q.sqHeld && |q'.accepted| == |q.accepted|
    requires |q'.ent| == |q.ent| && |q'.cq| == |q.cq|
    requires forall e :: 0 <= e < |q.ent| ==> q'.ent[e].req == q.ent[e].req && (q'.ent[e].at.InWait? <==> q.ent[e].at.InWait?)
    requires forall c :: 0 <= c < |q.cq| ==> q'.cq[c].req == q.cq[c].req
    ensures SamePipe(q, q', p)
  {
    assert Waiting(q') == Waiting(q) && InCq(q') == InCq(q) && Delivered(q') == Delivered(q);
  }

  lemma CheckSync(q: Queue, p: Option<nat>, e: nat)
    requires OneAtATime(q, p) && Allowed(q, CompleteCheck(e)) && (e < |q.ent| ==> EntryOk(q, e))
    ensures OneAtATime(DoCheck(q, e), p) && SamePipe(q, DoCheck(q, e), p)
  {
    SameTickets(q, DoCheck(q, e), p);
    hide SamePipe;
  }

  lemma TakeSync(q: Queue, p: Option<nat>, e: nat)
    requires CqLists(q) && OneAtATime(q, p)
    ensures OneAtATime(DoTake(q, e), p) && SamePipe(q, DoTake(q, e), p)
  {
    assert q.cqFree != [] ==> q.cqFree[0] in q.cqFree;
    SameTickets(q, DoTake(q, e), p);
    hide SamePipe;
  }

  lemma FreeSync(q: Queue, p: Option<nat>, e: nat)
    requires OneAtATime(q, p) && (e < |q.ent| ==> EntryOk(q, e))
    ensures OneAtATime(DoFree(q, e), p) && SamePipe(q, DoFree(q, e), p)
  {
    SameTickets(q, DoFree(q, e), p);
    hide SamePipe;
  }

  lemma MoveSync(q: Queue, p: Option<nat>, e: nat)
    requires Lists(q) && CqLists(q) && OneAtATime(q, p) && Threads(q) && CanMove(q, e)
    requires EntryOk(q, e)
    ensures var q', p' := DoMove(q, e), Some(q.ent[e].at.stage.c);
            && OneAtATime(q', p') && Done(q') == Done(q) && Posting(q', p') + ToDo(q') == Posting(q, p) + ToDo(q)
  {
    hide NoDup;
    var q', c := DoMove(q, e), q.ent[e].at.stage.c;
    assert q.current == Some(e) && p.None?;
    MoveWaitingSame(q, e);
    MoveRuns(q, e);
    hide Waiting, InCq, Lists, CqLists;
  }

  lemma MoveWaitingSame(q: Queue, e: nat)
    requires Lists(q) && CqLists(q) && CanMove(q, e) && EntryOk(q, e) && q.ent[e].at.InWait?
    ensures Waiting(DoMove(q, e)) == Waiting(q) && InCq(DoMove(q, e)) == InCq(q)
  {
    hide NoDup;
    assert forall j :: 0 <= j < |q.sqUsed| ==> q.sqUsed[j] in q.sqUsed;
    assert forall j :: 0 <= j < |q.cqUsed| ==> q.cqUsed[j] in q.cqUsed;
  }

  /** The request moves from the running entry to the completion entry. */
  lemma MoveRuns(q: Queue, e: nat)
    requires CanMove(q, e) && EntryOk(q, e) && q.ent[e].at.InWait? && q.current == Some(e)
    ensures Posting(DoMove(q, e), Some(q.ent[e].at.stage.c)) == Running(q) && Running(DoMove(q, e)) == []
  {
  }

  lemma PostSync(q: Queue, p: Option<nat>, c: nat)
    requires CqLists(q) && OneAtATime(q, p) && Threads(q) && c < |q.cq| && q.cq[c].at == CPosting
    ensures var q' := DoPost(q, c);
            && OneAtATime(q', None) && ToDo(q') == ToDo(q) && Done(q') + Posting(q', None) == Done(q) + Posting(q, p)
  {
    var q' := DoPost(q, c);
    assert p == Some(c);
    assert InCq(q') == InCq(q) + [CTicket(q, c)];
    assert Waiting(q') == Waiting(q);
  }

  lemma CqDequeueSync(q: Queue, p: Option<nat>)
    requires CqLists(q) && OneAtATime(q, p)
    ensures OneAtATime(DoCqDequeue(q), p) && SamePipe(q, DoCqDequeue(q), p)
  {
    var q' := DoCqDequeue(q);
    if q' != q {
      PopFacts(q.cqUsed);
      assert InCq(q) == AtCqTh(q') + InCq(q');
      assert Waiting(q') == Waiting(q);
    }
  }

  lemma CqReleaseSync(q: Queue, p: Option<nat>)
    requires CqLists(q) && OneAtATime(q, p) && Threads(q)
    ensures OneAtATime(DoCqRelease(q), p) && SamePipe(q, DoCqRelease(q), p)
  {
    var q' := DoCqRelease(q);
    assert forall j :: 0 <= j < |q.cqUsed| ==> q.cqUsed[j] in q.cqUsed;
    assert InCq(q') == InCq(q) && Waiting(q') == Waiting(q);
  }

  lemma CqDeliverSync(q: Queue, p: Option<nat>)
    requires OneAtATime(q, p)
    ensures OneAtATime(DoCqDeliver(q), p) && SamePipe(q, DoCqDeliver(q), p)
  {
    var q' := DoCqDeliver(q);
    if q' != q {
      assert Delivered(q') == Delivered(q) + AtCqTh(q);
      assert InCq(q') == InCq(q) && Waiting(q') == Waiting(q);
    }
  }

  /** Dropping a request from the middle keeps the rest in order. */
  lemma DropMiddle(a: seq<nat>, b: seq<nat>, c: seq<nat>, bound: nat)
    requires IncreasingBelow(a + (b + c), bound)
    ensures IncreasingBelow(a + c, bound)
  {
    var all := a + (b + c);
    assert forall i :: 0 <= i < |a| ==> all[i] == a[i];
    assert forall i :: 0 <= i < |c| ==> all[|a| + |b| + i] == c[i];
  }

  lemma PipeSame(q: Queue, q': Queue, p: Option<nat>)
    requires SamePipe(q, q', p) && IncreasingBelow(Pipe(q, p), |q.accepted|)
    ensures IncreasingBelow(Pipe(q', p), |q'.accepted|)
  {
    hide Done, Posting, ToDo, IncreasingBelow;
  }

  lemma PipeMoved(q: Queue, q': Queue, p: Option<nat>, p': Option<nat>)
    requires Done(q') == Done(q) && Posting(q', p') + ToDo(q') == Posting(q, p) + ToDo(q)
    requires |q'.accepted| == |q.accepted| && IncreasingBelow(Pipe(q, p), |q.accepted|)
    ensures IncreasingBelow(Pipe(q', p'), |q'.accepted|)
  {
    hide Done, Posting, ToDo, IncreasingBelow;
    assert Pipe(q', p') == Done(q') + (Posting(q', p') + ToDo(q'));
    assert Pipe(q, p) == Done(q) + (Posting(q, p) + ToDo(q));
  }

  lemma PipePosted(q: Queue, q': Queue, p: Option<nat>, p': Option<nat>)
    requires ToDo(q') == ToDo(q) && Done(q') + Posting(q', p') == Done(q) + Posting(q, p)
    requires |q'.accepted| == |q.accepted| && IncreasingBelow(Pipe(q, p), |q.accepted|)
    ensures IncreasingBelow(Pipe(q', p'), |q'.accepted|)
  {
    hide Done, Posting, ToDo, IncreasingBelow;
  }

  lemma PipeExtended(q: Queue, q': Queue, p: Option<nat>)
    requires Done(q') == Done(q) && Posting(q', p) == Posting(q, p) && ToDo(q') == ToDo(q) + [|q.accepted|]
    requires |q'.accepted| == |q.accepted| + 1 && IncreasingBelow(Pipe(q, p), |q.accepted|)
    ensures IncreasingBelow(Pipe(q', p), |q'.accepted|)
  {
    hide Done, Posting, ToDo;
    assert Pipe(q', p) == Pipe(q, p) + [|q.accepted|];
  }

  lemma PipeDropped(q: Queue, q': Queue, p: Option<nat>)
    requires Done(q') == Done(q) && Posting(q', p) == Posting(q, p) && ToDo(q) == Running(q) + ToDo(q')
    requires |q'.accepted| == |q.accepted| && IncreasingBelow(Pipe(q, p), |q.accepted|)
    ensures IncreasingBelow(Pipe(q', p), |q'.accepted|)
  {
    hide Done, Posting, ToDo, IncreasingBelow, Running;
    assert Pipe(q, p) == (Done(q) + Posting(q, p)) + (Running(q) + ToDo(q'));
    DropMiddle(Done(q) + Posting(q, p), Running(q), ToDo(q'), |q.accepted|);
  }

  lemma EntryAt(q: Queue, e: nat)
    requires AllEntries(q)
    ensures e < |q.ent| ==> EntryOk(q, e)
  {
  }

  lemma SyncStepInv(q: Queue, p: Option<nat>, a: Action)
    requires SyncInv(q, p) && Allowed(q, a)
    ensures SyncInv(Step(q, a), NextPosting(q, p, a))
  {
    FineStepInv(q, a);
    var q', p' := Step(q, a), NextPosting(q, p, a);
    hide Done, Posting, ToDo, OneAtATime, Lists, CqLists, Threads, AllEntries, AllCqEntries, AllDelivered, AllHomes,
         Sized, Settled, EntryOk, Pipe, IncreasingBelow, SamePipe, Running, DoSubmitTake, DoSubmitEnqueue, DoSqDequeue,
         DoSqWait, DoCheck, DoTake, DoFree, DoCqDequeue, DoCqRelease, DoCqDeliver, MoveWaiting, MoveOut;
    match a
    case SubmitTake(ptr) => SubmitTakeSync(q, p, ptr); PipeSame(q, q', p);
    case SubmitEnqueue(e) =>
      SubmitEnqueueSync(q, p, e);
      if q' != q { PipeExtended(q, q', p); }
    case SqDequeue => SqDequeueSync(q, p); PipeSame(q, q', p);
    case SqWait => SqWaitSync(q, p); PipeSame(q, q', p);
    case SqReturn => SqReturnSync(q, p); PipeDropped(q, q', p);
    case CompleteCheck(e) => EntryAt(q, e); CheckSync(q, p, e); PipeSame(q, q', p);
    case CompleteTake(e) => TakeSync(q, p, e); PipeSame(q, q', p);
    case CompleteMove(e) =>
      EntryAt(q, e);
      if CanMove(q, e) {
        MoveSync(q, p, e);
        PipeMoved(q, q', p, p');
      }
    case CompleteFree(e) => EntryAt(q, e); FreeSync(q, p, e); PipeSame(q, q', p);
    case CompletePost(c) =>
      if c < |q.cq| && q.cq[c].at == CPosting {
        PostSync(q, p, c);
        PipePosted(q, q', p, p');
      }
    case CqDequeue => CqDequeueSync(q, p); PipeSame(q, q', p);
    case CqRelease => CqReleaseSync(q, p); PipeSame(q, q', p);
    case CqDeliver => CqDeliverSync(q, p); PipeSame(q, q', p);
  }

  lemma DeliveredPrefix(q: Queue, p: Option<nat>)
    requires IncreasingBelow(Pipe(q, p), |q.accepted|)
    ensures forall j, k :: 0 <= j < k < |q.delivered| ==> q.delivered[j].ticket < q.delivered[k].ticket
  {
    assert forall j :: 0 <= j < |q.delivered| ==> Pipe(q, p)[j] == q.delivered[j].ticket;
  }

  lemma SyncStart(n: nat)
    ensures SyncInv(Init(n), None)
  {
    InitInv(n);
    var q := Init(n);
    assert Delivered(q) == [] && InCq(q) == [] && Waiting(q) == [];
    assert Pipe(q, None) == [];
  }

  lemma {:induction false} SyncReachable(n: nat, actions: seq<Action>) returns (p: Option<nat>)
    ensures SyncInv(SyncRun(Init(n), actions), p)
  {
    if actions == [] {
      SyncStart(n);
      p := None;
    } else {
      hide SyncInv, Step, NextPosting, Init, Allowed;
      var last := |actions| - 1;
      var before := SyncRun(Init(n), actions[..last]);
      p := SyncReachable(n, actions[..last]);
      if Allowed(before, actions[last]) {
        SyncStepInv(before, p, actions[last]);
        p := NextPosting(before, p, actions[last]);
      }
    }
  }

  /** Over every run in which the SQ function completes synchronously, requests are delivered in
      queueing order. */
  lemma DeliveredInOrder(n: nat, actions: seq<Action>)
    ensures var q := SyncRun(Init(n), actions);
            forall j, k :: 0 <= j < k < |q.delivered| ==> q.delivered[j].ticket < q.delivered[k].ticket
  {
    var p := SyncReachable(n, actions);
    DeliveredPrefix(SyncRun(Init(n), actions), p);
  }
}
