/** The multi-queue engine (core/ox-mq.c) as a transition system: submitters, the SQ thread,
    completers, the CQ thread and the timeout sweep act on the five lists of one queue. Any number
    of threads may be under way; each is known by the entry it works on. */
module OxMq {
  import opened Sequences

  /** A request: its number in queueing order, and the caller's pointer (0 is null). */
  datatype Req = Req(ticket: nat, ptr: nat)
  datatype Status = Free | Queued | Waiting | TimedOut | TimeoutCompleted | TimeoutBack

  /** How far a completion call on an entry has come: not called, past the first check, or holding
      the completion entry `c`. */
  datatype Stage = Idle | Checked | Taken(c: nat)

  /** Where a submission entry is; `Out` is off the lists after a timeout, `Gone` is freed. */
  datatype Place = InFree | WithSubmitter(ptr: nat) | InUsed | WithSq | InWait(stage: Stage)
                 | Moving(c: nat) | Out(stage: Stage) | Gone

  /** Where a completion entry is; `CTaken` and `CFilled` name the submission entry it serves. */
  datatype CPlace = CFree | CTaken(e: nat) | CFilled(e: nat) | CPosting | CUsed | CWithCq

  /** struct ox_mq_entry, as used for submissions and for completions. */
  datatype Entry = Entry(req: Option<Req>, status: Status, ext: bool, at: Place)
  datatype CEntry = CEntry(req: Option<Req>, at: CPlace)

  datatype CqStage = CqIdle | CqGot(c: nat) | CqReady(req: Req)

  /** Where a request is: in a submission entry, in a completion entry, with the CQ thread,
      delivered, or given up by a timeout. */
  datatype Home = AtSq(e: nat) | AtCq(c: nat) | AtCqThread | DoneAt(k: nat) | Lost

  datatype Queue = Queue(
    size: nat, ent: seq<Entry>, cq: seq<CEntry>,
    sqFree: seq<nat>, sqUsed: seq<nat>, sqWait: seq<nat>, cqFree: seq<nat>, cqUsed: seq<nat>,
    sqHeld: Option<nat>, current: Option<nat>, cqStage: CqStage,
    accepted: seq<Req>, delivered: seq<Req>, home: seq<Home>)

  const FREE_ENTRY := Entry(None, Free, false, InFree)

  function Init(size: nat): Queue {
    Queue(size, seq(size, _ => FREE_ENTRY), seq(size, _ => CEntry(None, CFree)),
          seq(size, i => i), [], [], seq(size, i => i), [], None, None, CqIdle, [], [], [])
  }

  // ----- One action per mutex region; an action that is not enabled changes nothing -----

  datatype Action =
    | SubmitTake(ptr: nat)
    | SubmitEnqueue(e: nat)
    | SqDequeue
    | SqWait
    | SqReturn
    | CompleteCheck(e: nat)
    | CompleteTake(e: nat)
    | CompleteMove(e: nat)
    | CompleteFree(e: nat)
    | CompletePost(c: nat)
    | CqDequeue
    | CqRelease
    | CqDeliver
    | CompleteAll(e: nat)
    | Sweep(expired: set<nat>, complete: bool)

  /** Takes the first free entry; a full queue rejects the request. */
  function DoSubmitTake(q: Queue, ptr: nat): Queue {
    if q.sqFree == [] || q.sqFree[0] >= |q.ent| then q
    else
      var e := q.sqFree[0];
      q.(sqFree := q.sqFree[1..], ent := q.ent[e := q.ent[e].(at := WithSubmitter(ptr))])
  }

  /** The request is accepted: its entry goes to the tail of the used list. */
  function DoSubmitEnqueue(q: Queue, e: nat): Queue {
    if e >= |q.ent| || !q.ent[e].at.WithSubmitter? then q
    else
      var r := Req(|q.accepted|, q.ent[e].at.ptr);
      q.(ent := q.ent[e := q.ent[e].(req := Some(r), status := Queued, at := InUsed)],
         sqUsed := q.sqUsed + [e], accepted := q.accepted + [r], home := q.home + [AtSq(e)])
  }

  function DoSqDequeue(q: Queue): Queue {
    if q.sqHeld.Some? || q.current.Some? || q.sqUsed == [] || q.sqUsed[0] >= |q.ent| then q
    else
      var e := q.sqUsed[0];
      q.(sqUsed := q.sqUsed[1..], ent := q.ent[e := q.ent[e].(at := WithSq)], sqHeld := Some(e))
  }

  /** The entry waits and is handed to the SQ function. */
  function DoSqWait(q: Queue): Queue {
    if q.sqHeld.None? || q.sqHeld.value >= |q.ent| then q
    else
      var e := q.sqHeld.value;
      q.(sqHeld := None, sqWait := q.sqWait + [e], current := Some(e),
         ent := q.ent[e := q.ent[e].(status := Waiting, at := InWait(Idle))])
  }

  /** A completion call passes the first check of the entry, or is refused. It is called for an
      entry that was handed to the SQ function, by one thread at a time. */
  function DoCheck(q: Queue, e: nat): Queue {
    if e >= |q.ent| || (q.ent[e].at != InWait(Idle) && q.ent[e].at != Out(Idle)) then q
    else
      var x := q.ent[e];
      if x.req.None? || x.req.value.ptr == 0 || x.status == TimeoutBack then q
      else if x.status == TimeoutCompleted then
        q.(ent := q.ent[e := x.(status := TimeoutBack, at := if x.ext then Gone else x.at)])
      else q.(ent := q.ent[e := x.(at := if x.at.InWait? then InWait(Checked) else Out(Checked))])
  }

  /** Takes a free completion entry; a full completion queue refuses the call. */
  function DoTake(q: Queue, e: nat): Queue {
    if e >= |q.ent| || (q.ent[e].at != InWait(Checked) && q.ent[e].at != Out(Checked)) then q
    else
      var x := q.ent[e];
      if q.cqFree == [] || q.cqFree[0] >= |q.cq| then
        q.(ent := q.ent[e := x.(at := if x.at.InWait? then InWait(Idle) else Out(Idle))])
      else
        var c := q.cqFree[0];
        q.(cqFree := q.cqFree[1..], cq := q.cq[c := q.cq[c].(at := CTaken(e))],
           ent := q.ent[e := x.(at := if x.at.InWait? then InWait(Taken(c)) else Out(Taken(c)))])
  }

  ghost predicate CanMove(q: Queue, e: nat) {
    && e < |q.ent| && (q.ent[e].at.InWait? || q.ent[e].at.Out?) && q.ent[e].at.stage.Taken?
    && q.ent[e].at.stage.c < |q.cq| && q.ent[e].req.Some? && q.ent[e].req.value.ticket < |q.home|
  }

  /** A waiting entry hands its request to the completion entry and leaves the wait list. */
  ghost function MoveWaiting(q: Queue, e: nat): Queue
    requires CanMove(q, e)
  {
    var x := q.ent[e];
    var c, r := x.at.stage.c, x.req.value;
    q.(home := q.home[r.ticket := AtCq(c)], cq := q.cq[c := CEntry(Some(r), CFilled(e))],
       sqWait := Remove(q.sqWait, e), ent := q.ent[e := x.(req := None, status := Free, at := Moving(c))])
  }

  /** A timed-out entry hands its request over and is otherwise left alone. */
  ghost function MoveOut(q: Queue, e: nat): Queue
    requires CanMove(q, e)
  {
    var x := q.ent[e];
    var c, r := x.at.stage.c, x.req.value;
    q.(home := q.home[r.ticket := AtCq(c)], cq := q.cq[c := CEntry(Some(r), CPosting)],
       ent := q.ent[e := x.(at := Out(Idle))])
  }

  ghost function DoMove(q: Queue, e: nat): Queue {
    if !CanMove(q, e) then q
    else if q.ent[e].status == Waiting then MoveWaiting(q, e)
    else MoveOut(q, e)
  }

  function DoFree(q: Queue, e: nat): Queue {
    if e >= |q.ent| || !q.ent[e].at.Moving? || q.ent[e].at.c >= |q.cq| then q
    else
      var c := q.ent[e].at.c;
      q.(sqFree := q.sqFree + [e], ent := q.ent[e := q.ent[e].(at := InFree)], cq := q.cq[c := q.cq[c].(at := CPosting)])
  }

  function DoPost(q: Queue, c: nat): Queue {
    if c >= |q.cq| || q.cq[c].at != CPosting then q
    else q.(cqUsed := q.cqUsed + [c], cq := q.cq[c := q.cq[c].(at := CUsed)])
  }

  function DoCqDequeue(q: Queue): Queue {
    if !q.cqStage.CqIdle? || q.cqUsed == [] || q.cqUsed[0] >= |q.cq| then q
    else
      var c := q.cqUsed[0];
      q.(cqUsed := q.cqUsed[1..], cq := q.cq[c := q.cq[c].(at := CWithCq)], cqStage := CqGot(c))
  }

  /** The CQ thread takes the request out of its entry and gives the entry back. */
  function DoCqRelease(q: Queue): Queue {
    if !q.cqStage.CqGot? || q.cqStage.c >= |q.cq| || q.cq[q.cqStage.c].req.None?
       || q.cq[q.cqStage.c].req.value.ticket >= |q.home| then q
    else
      var c := q.cqStage.c;
      var r := q.cq[c].req.value;
      q.(cqStage := CqReady(r), cq := q.cq[c := CEntry(None, CFree)], cqFree := q.cqFree + [c],
         home := q.home[r.ticket := AtCqThread])
  }

  function DoCqDeliver(q: Queue): Queue {
    if !q.cqStage.CqReady? || q.cqStage.req.ticket >= |q.home| then q
    else
      var r := q.cqStage.req;
      q.(cqStage := CqIdle, delivered := q.delivered + [r], home := q.home[r.ticket := DoneAt(|q.delivered|)])
  }

  /** A whole completion call with nothing in between. */
  ghost function DoCompleteAll(q: Queue, e: nat): Queue {
    var q1 := DoTake(DoCheck(q, e), e);
    if !CanMove(q1, e) then q1
    else DoPost(DoFree(DoMove(q1, e), e), q1.ent[e].at.stage.c)
  }

  // ----- The timeout sweep -----

  /** A timed-out entry leaves the wait list and a new entry takes its place in the free list. */
  ghost function TimeOut(q: Queue, e: nat): Queue {
    if e >= |q.ent| || q.ent[e].at != InWait(Idle) then q
    else
      q.(sqWait := Remove(q.sqWait, e), sqFree := q.sqFree + [|q.ent|],
         ent := q.ent[e := q.ent[e].(status := TimedOut, at := Out(Idle))] + [FREE_ENTRY.(ext := true)])
  }

  ghost function TimeOutAll(q: Queue, es: seq<nat>): Queue
    decreases |es|
  {
    if es == [] then q else TimeOut(TimeOutAll(q, es[..|es| - 1]), es[|es| - 1])
  }

  /** The entry is closed for good; a request that was not posted is given up. */
  ghost function Close(q: Queue, e: nat): Queue {
    if e >= |q.ent| || q.ent[e].req.None? || q.ent[e].req.value.ticket >= |q.home| then q
    else
      var i := q.ent[e].req.value.ticket;
      q.(ent := q.ent[e := q.ent[e].(status := TimeoutCompleted)],
         home := if q.home[i] == AtSq(e) then q.home[i := Lost] else q.home)
  }

  ghost function CloseOne(q: Queue, e: nat, complete: bool): Queue {
    Close(if complete then DoCompleteAll(q, e) else q, e)
  }

  /** The entries are closed from the last to the first. */
  ghost function CloseAll(q: Queue, es: seq<nat>, complete: bool): Queue
    decreases |es|
  {
    if es == [] then q else CloseAll(CloseOne(q, es[|es| - 1], complete), es[..|es| - 1], complete)
  }

  function Filter(es: seq<nat>, keep: set<nat>): seq<nat> {
    if es == [] then [] else Filter(es[..|es| - 1], keep) + if es[|es| - 1] in keep then [es[|es| - 1]] else []
  }

  /** One sweep: the waiting entries that have expired are timed out, then completed on behalf of
      their owner if the queue is configured so, and closed. */
  ghost function DoSweep(q: Queue, expired: set<nat>, complete: bool): Queue {
    var es := Filter(q.sqWait, expired);
    CloseAll(TimeOutAll(q, es), es, complete)
  }

  ghost function Step(q: Queue, a: Action): Queue {
    match a
    case SubmitTake(ptr) => DoSubmitTake(q, ptr)
    case SubmitEnqueue(e) => DoSubmitEnqueue(q, e)
    case SqDequeue => DoSqDequeue(q)
    case SqWait => DoSqWait(q)
    case SqReturn => q.(current := None)
    case CompleteCheck(e) => DoCheck(q, e)
    case CompleteTake(e) => DoTake(q, e)
    case CompleteMove(e) => DoMove(q, e)
    case CompleteFree(e) => DoFree(q, e)
    case CompletePost(c) => DoPost(q, c)
    case CqDequeue => DoCqDequeue(q)
    case CqRelease => DoCqRelease(q)
    case CqDeliver => DoCqDeliver(q)
    case CompleteAll(e) => DoCompleteAll(q, e)
    case Sweep(expired, complete) => DoSweep(q, expired, complete)
  }

  ghost function Run(q: Queue, actions: seq<Action>): Queue {
    if actions == [] then q else Step(Run(q, actions[..|actions| - 1]), actions[|actions| - 1])
  }

  /** The actions of a queue without timeouts: every mutex region is a step of its own. */
  ghost predicate Fine(a: Action) {
    !a.CompleteAll? && !a.Sweep?
  }

  /** The actions of a queue with timeouts: a completion call and a sweep are single steps. */
  ghost predicate Timed(a: Action) {
    !a.CompleteCheck? && !a.CompleteTake? && !a.CompleteMove? && !a.CompleteFree? && !a.CompletePost?
  }

  // ----- The invariant -----

  ghost predicate Known(q: Queue, r: Req) {
    r.ticket < |q.accepted| == |q.home| && q.accepted[r.ticket] == r
  }

  /** The entry holds a request, and that is where the request is. */
  ghost predicate Here(q: Queue, e: nat)
    requires e < |q.ent|
  {
    q.ent[e].req.Some? && Known(q, q.ent[e].req.value) && q.home[q.ent[e].req.value.ticket] == AtSq(e)
  }

  ghost predicate HereC(q: Queue, c: nat)
    requires c < |q.cq|
  {
    q.cq[c].req.Some? && Known(q, q.cq[c].req.value) && q.home[q.cq[c].req.value.ticket] == AtCq(c)
  }

  ghost predicate StageOk(q: Queue, e: nat, st: Stage) {
    st.Taken? ==> st.c < |q.cq| && q.cq[st.c].at == CTaken(e)
  }

  ghost predicate EntryOk(q: Queue, e: nat)
    requires e < |q.ent|
  {
    var x := q.ent[e];
    match x.at
    case InFree => x.req.None?
    case WithSubmitter(_) => x.req.None?
    case InUsed => x.status == Queued && Here(q, e)
    case WithSq => x.status == Queued && Here(q, e) && q.sqHeld == Some(e)
    case InWait(st) => x.status == Waiting && Here(q, e) && StageOk(q, e, st)
    case Moving(c) => x.req.None? && c < |q.cq| && q.cq[c].at == CFilled(e)
    case Out(st) => && x.req.Some? && Known(q, x.req.value)
                    && (x.status == TimedOut || x.status == TimeoutCompleted || x.status == TimeoutBack)
                    && (st.Idle? || (x.status == TimedOut && Here(q, e) && StageOk(q, e, st)))
    case Gone => true
  }

  ghost predicate CqEntryOk(q: Queue, c: nat)
    requires c < |q.cq|
  {
    match q.cq[c].at
    case CFree => q.cq[c].req.None?
    case CTaken(e) => q.cq[c].req.None? && e < |q.ent| && (q.ent[e].at == InWait(Taken(c)) || q.ent[e].at == Out(Taken(c)))
    case CFilled(e) => HereC(q, c) && e < |q.ent| && q.ent[e].at == Moving(c)
    case CPosting => HereC(q, c)
    case CUsed => HereC(q, c)
    case CWithCq => HereC(q, c) && q.cqStage == CqGot(c)
  }

  /** The lists hold exactly the entries that are said to be on them, once each. */
  ghost predicate Lists(q: Queue) {
    && NoDup(q.sqFree) && (forall e :: e in q.sqFree <==> 0 <= e < |q.ent| && q.ent[e].at == InFree)
    && NoDup(q.sqUsed) && (forall e :: e in q.sqUsed <==> 0 <= e < |q.ent| && q.ent[e].at == InUsed)
    && NoDup(q.sqWait) && (forall e :: e in q.sqWait <==> 0 <= e < |q.ent| && q.ent[e].at.InWait?)
  }

  ghost predicate CqLists(q: Queue) {
    && NoDup(q.cqFree) && (forall c :: c in q.cqFree <==> 0 <= c < |q.cq| && q.cq[c].at == CFree)
    && NoDup(q.cqUsed) && (forall c :: c in q.cqUsed <==> 0 <= c < |q.cq| && q.cq[c].at == CUsed)
  }

  ghost predicate Threads(q: Queue) {
    && |q.home| == |q.accepted|
    && (q.sqHeld.Some? ==> q.sqHeld.value < |q.ent| && q.ent[q.sqHeld.value].at == WithSq)
    && match q.cqStage
       case CqIdle => true
       case CqGot(c) => c < |q.cq| && q.cq[c].at == CWithCq
       case CqReady(r) => Known(q, r) && q.home[r.ticket] == AtCqThread
  }

  ghost predicate AllEntries(q: Queue) { forall e :: 0 <= e < |q.ent| ==> EntryOk(q, e) }
  ghost predicate AllCqEntries(q: Queue) { forall c :: 0 <= c < |q.cq| ==> CqEntryOk(q, c) }

  ghost predicate AllDelivered(q: Queue) {
    forall k :: 0 <= k < |q.delivered| ==> Known(q, q.delivered[k]) && q.home[q.delivered[k].ticket] == DoneAt(k)
  }

  /** The entry holds a request that is still to be completed. */
  ghost predicate Live(x: Entry) {
    x.req.Some? && (x.at.InUsed? || x.at.WithSq? || x.at.InWait? || (x.at.Out? && x.status == TimedOut))
  }

  /** Accepted request `i` is where its home says. */
  ghost predicate AtHome(q: Queue, i: nat)
    requires i < |q.accepted| == |q.home|
  {
    q.accepted[i].ticket == i &&
    match q.home[i]
    case AtSq(e) => e < |q.ent| && Live(q.ent[e]) && q.ent[e].req == Some(q.accepted[i])
    case AtCq(c) => c < |q.cq| && q.cq[c].req == Some(q.accepted[i])
    case AtCqThread => q.cqStage == CqReady(q.accepted[i])
    case DoneAt(k) => k < |q.delivered| && q.delivered[k] == q.accepted[i]
    case Lost => true
  }

  ghost predicate AllHomes(q: Queue)
    requires |q.accepted| == |q.home|
  {
    forall i :: 0 <= i < |q.accepted| ==> AtHome(q, i)
  }

  ghost predicate InHand(p: Place) { p.WithSubmitter? || p.WithSq? || p.Moving? }

  /** The entries that a thread has taken off a list and not put on the next one yet. */
  ghost function Hands(q: Queue): set<nat> {
    set e | 0 <= e < |q.ent| && InHand(q.ent[e].at)
  }

  /** No entry is lost: the lists and the threads hold as many as the queue was made with. */
  ghost predicate Sized(q: Queue) {
    |q.sqFree| + |q.sqUsed| + |q.sqWait| + |Hands(q)| == q.size
  }

  ghost predicate Core(q: Queue) {
    && Lists(q) && CqLists(q) && Threads(q) && AllEntries(q) && AllCqEntries(q)
    && AllDelivered(q) && AllHomes(q) && Sized(q)
  }

  /** No timed-out entry is left half-way. */
  ghost predicate Settled(q: Queue) {
    forall e :: 0 <= e < |q.ent| && q.ent[e].at.Out? ==> q.ent[e].status != TimedOut
  }

  ghost predicate Inv(q: Queue) {
    Core(q) && Settled(q)
  }

  // ----- Each action keeps the invariant -----

  lemma InitInv(n: nat)
    ensures Inv(Init(n))
  {
    var q := Init(n);
    forall e | 0 <= e < n ensures e in q.sqFree && e in q.cqFree {
      assert q.sqFree[e] == e && q.cqFree[e] == e;
    }
    assert Hands(q) == {};
  }

  /** The part of the invariant that speaks of entries and requests one by one. */
  ghost predicate Rest(q: Queue) {
    AllEntries(q) && AllCqEntries(q) && AllDelivered(q) && Threads(q) && AllHomes(q)
  }

  lemma SubmitTakeInv(q: Queue, ptr: nat)
    requires Inv(q)
    ensures Inv(DoSubmitTake(q, ptr))
  {
    if q.sqFree != [] {
      SubmitTakeRest(q, ptr);
      SubmitTakeLists(q, ptr);
      assert Settled(DoSubmitTake(q, ptr));
      hide Settled, Lists, CqLists, Sized, AllEntries, AllCqEntries, AllDelivered, AllHomes, Threads, DoSubmitTake;
    }
  }

  lemma SubmitTakeLists(q: Queue, ptr: nat)
    requires Lists(q) && CqLists(q) && Sized(q) && q.sqFree != []
    ensures var q' := DoSubmitTake(q, ptr); Lists(q') && CqLists(q') && Sized(q')
  {
    hide NoDup;
    var e, q' := q.sqFree[0], DoSubmitTake(q, ptr);
    PopFacts(q.sqFree);
    assert e in q.sqFree;
    assert e < |q.ent| && q.ent[e].at == InFree;
    assert q'.ent == q.ent[e := q'.ent[e]] && InHand(q'.ent[e].at);
    TakenInHand(q, q', e);
  }

  /** One more entry is in a thread's hand. */
  lemma TakenInHand(q: Queue, q': Queue, e: nat)
    requires e < |q.ent| == |q'.ent| && q'.ent == q.ent[e := q'.ent[e]] && !InHand(q.ent[e].at) && InHand(q'.ent[e].at)
    ensures |Hands(q')| == |Hands(q)| + 1
  {
    assert e !in Hands(q) && Hands(q') == Hands(q) + {e};
  }

  lemma SubmitTakeRest(q: Queue, ptr: nat)
    requires Rest(q) && Lists(q) && q.sqFree != []
    ensures Rest(DoSubmitTake(q, ptr))
  {
    var q' := DoSubmitTake(q, ptr);
    assert q.sqFree[0] in q.sqFree;
    forall x | 0 <= x < |q'.ent| ensures EntryOk(q', x) { assert EntryOk(q, x); }
    forall c | 0 <= c < |q'.cq| ensures CqEntryOk(q', c) { assert CqEntryOk(q, c); }
    forall i | 0 <= i < |q'.accepted| ensures AtHome(q', i) { assert AtHome(q, i); }
  }

  lemma SubmitEnqueueInv(q: Queue, e: nat)
    requires Inv(q)
    ensures Inv(DoSubmitEnqueue(q, e))
  {
    hide AllEntries, AllCqEntries, AllDelivered, AllHomes, Threads;
    var q' := DoSubmitEnqueue(q, e);
    if e < |q.ent| && q.ent[e].at.WithSubmitter? {
      NoDupAppend(q.sqUsed, e);
      assert Lists(q');
      assert e in Hands(q) && Hands(q') == Hands(q) - {e};
      SubmitEnqueueRest(q, e);
    }
  }

  lemma SubmitEnqueueRest(q: Queue, e: nat)
    requires Rest(q) && e < |q.ent| && q.ent[e].at.WithSubmitter?
    ensures Rest(DoSubmitEnqueue(q, e))
  {
    var q' := DoSubmitEnqueue(q, e);
    forall x | 0 <= x < |q'.ent| ensures EntryOk(q', x) { assert EntryOk(q, x); }
    forall c | 0 <= c < |q'.cq| ensures CqEntryOk(q', c) { assert CqEntryOk(q, c); }
    forall i | 0 <= i < |q'.accepted| ensures AtHome(q', i) { assert i < |q.accepted| ==> AtHome(q, i); }
  }

  lemma SqDequeueInv(q: Queue)
    requires Inv(q)
    ensures Inv(DoSqDequeue(q))
  {
    SqDequeueLists(q);
    SqDequeueRest(q);
    assert Settled(DoSqDequeue(q));
    hide Settled, Lists, CqLists, Sized, AllEntries, AllCqEntries, AllDelivered, AllHomes, Threads, DoSqDequeue;
  }

  lemma SqDequeueLists(q: Queue)
    requires Lists(q) && CqLists(q) && Sized(q)
    ensures Lists(DoSqDequeue(q)) && CqLists(DoSqDequeue(q)) && Sized(DoSqDequeue(q))
  {
    var q' := DoSqDequeue(q);
    if q.sqUsed != [] {
      hide NoDup;
      var e := q.sqUsed[0];
      PopFacts(q.sqUsed);
      assert e < |q.ent| && q.ent[e].at == InUsed;
      if q' != q {
        TakenInHand(q, q', e);
      }
    }
  }

  lemma SqDequeueRest(q: Queue)
    requires Rest(q) && Lists(q)
    ensures Rest(DoSqDequeue(q))
  {
    var q' := DoSqDequeue(q);
    assert q.sqUsed != [] ==> q.sqUsed[0] in q.sqUsed;
    forall x | 0 <= x < |q'.ent| ensures EntryOk(q', x) { assert EntryOk(q, x); }
    forall c | 0 <= c < |q'.cq| ensures CqEntryOk(q', c) { assert CqEntryOk(q, c); }
    forall i | 0 <= i < |q'.accepted| ensures AtHome(q', i) { assert AtHome(q, i); }
  }

  lemma SqWaitInv(q: Queue)
    requires Inv(q)
    ensures Inv(DoSqWait(q))
  {
    hide AllEntries, AllCqEntries, AllDelivered, AllHomes;
    var q' := DoSqWait(q);
    if q.sqHeld.Some? {
      var e := q.sqHeld.value;
      NoDupAppend(q.sqWait, e);
      assert Lists(q');
      assert e in Hands(q) && Hands(q') == Hands(q) - {e};
      SqWaitRest(q);
    }
  }

  lemma SqWaitRest(q: Queue)
    requires Rest(q)
    ensures Rest(DoSqWait(q))
  {
    var q' := DoSqWait(q);
    if q.sqHeld.Some? {
      assert EntryOk(q, q.sqHeld.value);
    }
    forall x | 0 <= x < |q'.ent| ensures EntryOk(q', x) { assert EntryOk(q, x); }
    forall c | 0 <= c < |q'.cq| ensures CqEntryOk(q', c) { assert CqEntryOk(q, c); }
    forall i | 0 <= i < |q'.accepted| ensures AtHome(q', i) { assert AtHome(q, i); }
  }

  /** The entry may be completed: its request is in it and nowhere else. */
  ghost predicate Completable(q: Queue, e: nat) {
    e < |q.ent| && (q.ent[e].at.InWait? || (q.ent[e].at.Out? && q.ent[e].status == TimedOut && Here(q, e)))
  }

  lemma CheckInv(q: Queue, e: nat)
    requires Core(q) && (Settled(q) || Completable(q, e))
    ensures Core(DoCheck(q, e)) && (Settled(q) ==> Settled(DoCheck(q, e)))
  {
    if e < |q.ent| {
      CheckRest(q, e);
      assert EntryOk(q, e);
      CheckLists(q, e);
      assert Settled(q) ==> Settled(DoCheck(q, e));
      hide Settled, Lists, CqLists, Sized, AllEntries, AllCqEntries, AllDelivered, AllHomes, Threads, DoCheck;
    }
  }

  lemma CheckLists(q: Queue, e: nat)
    requires Lists(q) && CqLists(q) && Sized(q) && e < |q.ent| && EntryOk(q, e)
    ensures var q' := DoCheck(q, e); Lists(q') && CqLists(q') && Sized(q')
  {
    hide NoDup;
    assert Hands(DoCheck(q, e)) == Hands(q);
  }

  lemma CheckRest(q: Queue, e: nat)
    requires Rest(q) && (Settled(q) || Completable(q, e)) && e < |q.ent|
    ensures Rest(DoCheck(q, e))
  {
    var q' := DoCheck(q, e);
    assert EntryOk(q, e);
    CheckEntries(q, e);
    CheckCqEntries(q, e);
    CheckHomes(q, e);
    hide AllEntries, AllCqEntries, AllHomes;
  }

  lemma CheckEntries(q: Queue, e: nat)
    requires Rest(q) && (Settled(q) || Completable(q, e)) && e < |q.ent|
    ensures AllEntries(DoCheck(q, e))
  {
    var q' := DoCheck(q, e);
    assert EntryOk(q, e);
    forall x | 0 <= x < |q'.ent| ensures EntryOk(q', x) { assert EntryOk(q, x); }
  }

  lemma CheckCqEntries(q: Queue, e: nat)
    requires Rest(q) && (Settled(q) || Completable(q, e)) && e < |q.ent|
    ensures AllCqEntries(DoCheck(q, e))
  {
    var q' := DoCheck(q, e);
    assert EntryOk(q, e);
    forall c | 0 <= c < |q'.cq| ensures CqEntryOk(q', c) { assert CqEntryOk(q, c); }
  }

  lemma CheckHomes(q: Queue, e: nat)
    requires Rest(q) && (Settled(q) || Completable(q, e)) && e < |q.ent|
    ensures var q' := DoCheck(q, e); |q'.accepted| == |q'.home| && AllHomes(q')
  {
    var q' := DoCheck(q, e);
    assert EntryOk(q, e);
    forall i | 0 <= i < |q'.accepted| ensures AtHome(q', i) { assert AtHome(q, i); }
  }

  lemma TakeInv(q: Queue, e: nat)
    requires Core(q)
    ensures Core(DoTake(q, e)) && (Settled(q) ==> Settled(DoTake(q, e)))
  {
    if e < |q.ent| && (q.ent[e].at == InWait(Checked) || q.ent[e].at == Out(Checked)) {
      TakeRest(q, e);
      TakeLists(q, e);
      assert Settled(q) ==> Settled(DoTake(q, e));
      hide Settled, Lists, CqLists, Sized, AllEntries, AllCqEntries, AllDelivered, AllHomes, Threads, DoTake;
    }
  }

  lemma TakeLists(q: Queue, e: nat)
    requires Lists(q) && CqLists(q) && Sized(q) && e < |q.ent|
    ensures var q' := DoTake(q, e); Lists(q') && CqLists(q') && Sized(q')
  {
    hide NoDup;
    if q.cqFree != [] {
      PopFacts(q.cqFree);
    }
    assert Hands(DoTake(q, e)) == Hands(q);
  }

  lemma TakeRest(q: Queue, e: nat)
    requires Rest(q) && CqLists(q) && e < |q.ent| && (q.ent[e].at == InWait(Checked) || q.ent[e].at == Out(Checked))
    ensures Rest(DoTake(q, e))
  {
    var q' := DoTake(q, e);
    assert EntryOk(q, e);
    if q.cqFree != [] {
      assert q.cqFree[0] in q.cqFree && CqEntryOk(q, q.cqFree[0]);
    }
    TakeEntries(q, e);
    TakeCqEntries(q, e);
    TakeHomes(q, e);
    hide AllEntries, AllCqEntries, AllHomes;
  }

  lemma TakeEntries(q: Queue, e: nat)
    requires Rest(q) && CqLists(q) && e < |q.ent| && (q.ent[e].at == InWait(Checked) || q.ent[e].at == Out(Checked))
    ensures AllEntries(DoTake(q, e))
  {
    var q' := DoTake(q, e);
    assert EntryOk(q, e);
    if q.cqFree != [] {
      assert q.cqFree[0] in q.cqFree && CqEntryOk(q, q.cqFree[0]);
    }
    forall x | 0 <= x < |q'.ent| ensures EntryOk(q', x) { assert EntryOk(q, x); }
  }

  lemma TakeCqEntries(q: Queue, e: nat)
    requires Rest(q) && CqLists(q) && e < |q.ent| && (q.ent[e].at == InWait(Checked) || q.ent[e].at == Out(Checked))
    ensures AllCqEntries(DoTake(q, e))
  {
    var q' := DoTake(q, e);
    assert EntryOk(q, e);
    if q.cqFree != [] {
      assert q.cqFree[0] in q.cqFree && CqEntryOk(q, q.cqFree[0]);
    }
    forall c | 0 <= c < |q'.cq| ensures CqEntryOk(q', c) { assert CqEntryOk(q, c); }
  }

  lemma TakeHomes(q: Queue, e: nat)
    requires Rest(q) && CqLists(q) && e < |q.ent| && (q.ent[e].at == InWait(Checked) || q.ent[e].at == Out(Checked))
    ensures var q' := DoTake(q, e); |q'.accepted| == |q'.home| && AllHomes(q')
  {
    var q' := DoTake(q, e);
    assert EntryOk(q, e);
    if q.cqFree != [] {
      assert q.cqFree[0] in q.cqFree && CqEntryOk(q, q.cqFree[0]);
    }
    forall i | 0 <= i < |q'.accepted| ensures AtHome(q', i) { assert AtHome(q, i); }
  }

  lemma MoveInv(q: Queue, e: nat)
    requires Core(q)
    ensures Core(DoMove(q, e)) && (Settled(q) ==> Settled(DoMove(q, e)))
  {
    hide Lists, CqLists, Sized, AllDelivered, AllHomes, Threads;
    if CanMove(q, e) {
      assert EntryOk(q, e) && CqEntryOk(q, q.ent[e].at.stage.c);
      hide AllEntries, AllCqEntries;
      if q.ent[e].status == Waiting {
        MoveWaitingLists(q, e);
        MoveWaitingRest(q, e);
      } else {
        MoveOutLists(q, e);
        MoveOutRest(q, e);
      }
    }
  }

  lemma MoveWaitingLists(q: Queue, e: nat)
    requires Lists(q) && CqLists(q) && Sized(q)
    requires CanMove(q, e) && q.ent[e].at.InWait? && q.cq[q.ent[e].at.stage.c].at == CTaken(e)
    ensures Lists(MoveWaiting(q, e)) && CqLists(MoveWaiting(q, e)) && Sized(MoveWaiting(q, e))
  {
    hide NoDup;
    var q' := MoveWaiting(q, e);
    RemoveFacts(q.sqWait, e);
    assert e !in Hands(q) && Hands(q') == Hands(q) + {e};
  }

  lemma MoveOutLists(q: Queue, e: nat)
    requires Lists(q) && CqLists(q) && Sized(q)
    requires CanMove(q, e) && q.ent[e].at.Out? && q.cq[q.ent[e].at.stage.c].at == CTaken(e)
    ensures Lists(MoveOut(q, e)) && CqLists(MoveOut(q, e)) && Sized(MoveOut(q, e))
  {
    var q' := MoveOut(q, e);
    assert Hands(q') == Hands(q);
  }

  lemma MoveWaitingRest(q: Queue, e: nat)
    requires Rest(q) && CanMove(q, e) && q.ent[e].status == Waiting
    ensures Rest(MoveWaiting(q, e))
  {
    var q' := MoveWaiting(q, e);
    assert EntryOk(q, e) && CqEntryOk(q, q.ent[e].at.stage.c) && AtHome(q, q.ent[e].req.value.ticket);
    forall x | 0 <= x < |q'.ent| ensures EntryOk(q', x) { assert EntryOk(q, x); }
    forall d | 0 <= d < |q'.cq| ensures CqEntryOk(q', d) { assert CqEntryOk(q, d); }
    forall i | 0 <= i < |q'.accepted| ensures AtHome(q', i) { assert AtHome(q, i); }
  }

  lemma MoveOutRest(q: Queue, e: nat)
    requires Rest(q) && CanMove(q, e) && q.ent[e].status != Waiting
    ensures Rest(MoveOut(q, e))
  {
    var q' := MoveOut(q, e);
    assert EntryOk(q, e) && CqEntryOk(q, q.ent[e].at.stage.c) && AtHome(q, q.ent[e].req.value.ticket);
    forall x | 0 <= x < |q'.ent| ensures EntryOk(q', x) { assert EntryOk(q, x); }
    forall d | 0 <= d < |q'.cq| ensures CqEntryOk(q', d) { assert CqEntryOk(q, d); }
    forall i | 0 <= i < |q'.accepted| ensures AtHome(q', i) { assert AtHome(q, i); }
  }

  lemma FreeInv(q: Queue, e: nat)
    requires Core(q)
    ensures Core(DoFree(q, e)) && (Settled(q) ==> Settled(DoFree(q, e)))
  {
    var q' := DoFree(q, e);
    if q' != q {
      assert EntryOk(q, e);
      FreeRest(q, e);
      FreeLists(q, e);
      assert Settled(q) ==> Settled(q');
      hide Settled, Lists, CqLists, Sized, AllEntries, AllCqEntries, AllDelivered, AllHomes, Threads;
    }
  }

  lemma FreeLists(q: Queue, e: nat)
    requires Lists(q) && CqLists(q) && Sized(q) && e < |q.ent| && q.ent[e].at.Moving? && EntryOk(q, e)
    ensures var q' := DoFree(q, e); Lists(q') && CqLists(q') && Sized(q')
  {
    hide NoDup;
    var q' := DoFree(q, e);
    assert e !in q.sqFree;
    NoDupAppend(q.sqFree, e);
    assert e in Hands(q) && Hands(q') == Hands(q) - {e};
  }

  lemma FreeRest(q: Queue, e: nat)
    requires Rest(q) && e < |q.ent| && q.ent[e].at.Moving? && EntryOk(q, e)
    ensures Rest(DoFree(q, e))
  {
    var q' := DoFree(q, e);
    forall x | 0 <= x < |q'.ent| ensures EntryOk(q', x) { assert EntryOk(q, x); }
    forall c | 0 <= c < |q'.cq| ensures CqEntryOk(q', c) { assert CqEntryOk(q, c); }
    forall i | 0 <= i < |q'.accepted| ensures AtHome(q', i) { assert AtHome(q, i); }
  }

  lemma PostInv(q: Queue, c: nat)
    requires Core(q)
    ensures Core(DoPost(q, c)) && (Settled(q) ==> Settled(DoPost(q, c)))
  {
    hide NoDup;
    var q' := DoPost(q, c);
    if q' != q {
      assert CqEntryOk(q, c);
      NoDupAppend(q.cqUsed, c);
      assert Hands(q') == Hands(q);
      forall x | 0 <= x < |q'.ent| ensures EntryOk(q', x) { assert EntryOk(q, x); }
      forall d | 0 <= d < |q'.cq| ensures CqEntryOk(q', d) { assert CqEntryOk(q, d); }
      forall i | 0 <= i < |q'.accepted| ensures AtHome(q', i) { assert AtHome(q, i); }
    }
  }

  lemma CqDequeueInv(q: Queue)
    requires Inv(q)
    ensures Inv(DoCqDequeue(q))
  {
    hide NoDup;
    var q' := DoCqDequeue(q);
    if q' != q {
      PopFacts(q.cqUsed);
      assert CqEntryOk(q, q.cqUsed[0]);
      assert Hands(q') == Hands(q);
      forall x | 0 <= x < |q'.ent| ensures EntryOk(q', x) { assert EntryOk(q, x); }
      forall c | 0 <= c < |q'.cq| ensures CqEntryOk(q', c) { assert CqEntryOk(q, c); }
      forall i | 0 <= i < |q'.accepted| ensures AtHome(q', i) { assert AtHome(q, i); }
    }
  }

  lemma CqReleaseInv(q: Queue)
    requires Inv(q)
    ensures Inv(DoCqRelease(q))
  {
    hide NoDup;
    var q' := DoCqRelease(q);
    if q' != q {
      var c := q.cqStage.c;
      assert CqEntryOk(q, c);
      NoDupAppend(q.cqFree, c);
      assert Hands(q') == Hands(q);
      forall x | 0 <= x < |q'.ent| ensures EntryOk(q', x) { assert EntryOk(q, x); }
      forall d | 0 <= d < |q'.cq| ensures CqEntryOk(q', d) { assert CqEntryOk(q, d); }
      forall i | 0 <= i < |q'.accepted| ensures AtHome(q', i) { assert AtHome(q, i); }
    }
  }

  lemma CqDeliverInv(q: Queue)
    requires Inv(q)
    ensures Inv(DoCqDeliver(q))
  {
    var q' := DoCqDeliver(q);
    if q' != q {
      assert Hands(q') == Hands(q);
      forall x | 0 <= x < |q'.ent| ensures EntryOk(q', x) { assert EntryOk(q, x); }
      forall c | 0 <= c < |q'.cq| ensures CqEntryOk(q', c) { assert CqEntryOk(q, c); }
      forall i | 0 <= i < |q'.accepted| ensures AtHome(q', i) { assert AtHome(q, i); }
    }
  }

  lemma SqReturnInv(q: Queue)
    requires Inv(q)
    ensures Inv(q.(current := None))
  {
    var q' := q.(current := None);
    assert Hands(q') == Hands(q);
    forall x | 0 <= x < |q'.ent| ensures EntryOk(q', x) { assert EntryOk(q, x); }
    forall c | 0 <= c < |q'.cq| ensures CqEntryOk(q', c) { assert CqEntryOk(q, c); }
    forall i | 0 <= i < |q'.accepted| ensures AtHome(q', i) { assert AtHome(q, i); }
  }

  lemma FineStepInv(q: Queue, a: Action)
    requires Inv(q) && Fine(a)
    ensures Inv(Step(q, a))
  {
    hide Core, Settled, DoSubmitTake, DoSubmitEnqueue, DoSqDequeue, DoSqWait, DoCheck, DoTake, DoMove, DoFree, DoPost,
         DoCqDequeue, DoCqRelease, DoCqDeliver;
    match a
    case SubmitTake(ptr) => SubmitTakeInv(q, ptr);
    case SubmitEnqueue(e) => SubmitEnqueueInv(q, e);
    case SqDequeue => SqDequeueInv(q);
    case SqWait => SqWaitInv(q);
    case SqReturn => SqReturnInv(q);
    case CompleteCheck(e) => CheckInv(q, e);
    case CompleteTake(e) => TakeInv(q, e);
    case CompleteMove(e) => MoveInv(q, e);
    case CompleteFree(e) => FreeInv(q, e);
    case CompletePost(c) => PostInv(q, c);
    case CqDequeue => CqDequeueInv(q);
    case CqRelease => CqReleaseInv(q);
    case CqDeliver => CqDeliverInv(q);
  }

  // ----- What the invariant means -----

  /** Request `i` is at this place of the queue. */
  ghost predicate Located(q: Queue, i: nat, h: Home)
    requires i < |q.accepted|
  {
    match h
    case AtSq(e) => e < |q.ent| && Live(q.ent[e]) && q.ent[e].req == Some(q.accepted[i])
    case AtCq(c) => c < |q.cq| && q.cq[c].req == Some(q.accepted[i])
    case AtCqThread => q.cqStage == CqReady(q.accepted[i])
    case DoneAt(k) => k < |q.delivered| && q.delivered[k] == q.accepted[i]
    case Lost => false
  }

  /** Every accepted request is in at most one place: queued or waiting in one submission entry, in
      one completion entry, with the CQ thread, or delivered once. Unless a timeout gave it up, it
      is in exactly one. */
  lemma OnePlace(q: Queue, i: nat)
    requires Inv(q) && i < |q.accepted|
    ensures forall h :: Located(q, i, h) ==> h == q.home[i]
    ensures q.home[i] != Lost ==> Located(q, i, q.home[i])
  {
    assert AtHome(q, i);
    forall h | Located(q, i, h) ensures h == q.home[i] {
      match h
      case AtSq(e) => assert EntryOk(q, e);
      case AtCq(c) => assert CqEntryOk(q, c);
      case AtCqThread =>
      case DoneAt(k) =>
    }
  }

  /** No request is delivered twice, and only accepted requests are delivered. */
  lemma DeliveredOnce(q: Queue)
    requires Inv(q)
    ensures forall k :: 0 <= k < |q.delivered| ==> q.delivered[k] in q.accepted
    ensures forall j, k :: 0 <= j < k < |q.delivered| ==> q.delivered[j].ticket != q.delivered[k].ticket
  {
  }

  /** Without timeouts nothing is given up. */
  ghost predicate NoneLost(q: Queue) {
    forall i :: 0 <= i < |q.home| ==> q.home[i] != Lost
  }

  lemma FineStepKeepsAll(q: Queue, a: Action)
    requires NoneLost(q) && Fine(a)
    ensures NoneLost(Step(q, a))
  {
  }

  /** Over every run without timeouts, at mutex-region granularity: each accepted request is in
      exactly one place of the queue, delivered at most once, and no entry is lost. */
  lemma {:induction false} FineRun(n: nat, actions: seq<Action>)
    requires forall j :: 0 <= j < |actions| ==> Fine(actions[j])
    ensures Inv(Run(Init(n), actions)) && NoneLost(Run(Init(n), actions))
  {
    hide Inv, Step;
    if actions == [] {
      InitInv(n);
    } else {
      var last := |actions| - 1;
      FineRun(n, actions[..last]);
      FineStepInv(Run(Init(n), actions[..last]), actions[last]);
      FineStepKeepsAll(Run(Init(n), actions[..last]), actions[last]);
    }
  }

  ghost predicate InOnePlace(q: Queue, i: nat)
    requires i < |q.accepted|
  {
    exists h :: Located(q, i, h) && forall h' :: Located(q, i, h') ==> h' == h
  }

  /** What that says of the requests: each accepted one is in exactly one place. */
  lemma FineConserves(n: nat, actions: seq<Action>)
    requires forall j :: 0 <= j < |actions| ==> Fine(actions[j])
    ensures var q := Run(Init(n), actions);
            && (forall i :: 0 <= i < |q.accepted| ==> InOnePlace(q, i))
            && (forall j, k :: 0 <= j < k < |q.delivered| ==> q.delivered[j].ticket != q.delivered[k].ticket)
  {
    var q := Run(Init(n), actions);
    FineRun(n, actions);
    hide Run, Located;
    DeliveredOnce(q);
    forall i | 0 <= i < |q.accepted| ensures InOnePlace(q, i) {
      OnePlace(q, i);
      assert Located(q, i, q.home[i]);
    }
  }

  // ----- Timeouts -----

  /** No completion call is under way. */
  ghost predicate Quiet(q: Queue) {
    && (forall e :: 0 <= e < |q.ent| ==> !q.ent[e].at.Moving? && (q.ent[e].at.InWait? || q.ent[e].at.Out? ==> q.ent[e].at.stage.Idle?))
    && (forall c :: 0 <= c < |q.cq| ==> !q.cq[c].at.CTaken? && !q.cq[c].at.CFilled? && !q.cq[c].at.CPosting?)
  }

  /** The entry is timed out, with its request still in it. */
  ghost predicate Pending(q: Queue, e: nat) {
    e < |q.ent| && q.ent[e].at == Out(Idle) && q.ent[e].status == TimedOut && Here(q, e)
  }

  /** Only the entries of `es` are timed out and not closed yet. */
  ghost predicate Sweeping(q: Queue, es: seq<nat>) {
    && Core(q) && Quiet(q) && NoDup(es)
    && (forall j :: 0 <= j < |es| ==> Pending(q, es[j]))
    && (forall e :: 0 <= e < |q.ent| && q.ent[e].at.Out? && q.ent[e].status == TimedOut ==> e in es)
  }

  lemma TimeOutRest(q: Queue, e: nat)
    requires Rest(q) && e < |q.ent| && q.ent[e].at == InWait(Idle)
    ensures Rest(TimeOut(q, e)) && Pending(TimeOut(q, e), e)
  {
    var q' := TimeOut(q, e);
    assert EntryOk(q, e);
    forall x | 0 <= x < |q'.ent| ensures EntryOk(q', x) { assert x < |q.ent| ==> EntryOk(q, x); }
    forall c | 0 <= c < |q'.cq| ensures CqEntryOk(q', c) { assert CqEntryOk(q, c); }
    forall i | 0 <= i < |q'.accepted| ensures AtHome(q', i) { assert AtHome(q, i); }
  }

  lemma TimeOutLists(q: Queue, e: nat)
    requires Lists(q) && CqLists(q) && Sized(q) && e < |q.ent| && q.ent[e].at == InWait(Idle)
    ensures Lists(TimeOut(q, e)) && CqLists(TimeOut(q, e)) && Sized(TimeOut(q, e))
  {
    var q' := TimeOut(q, e);
    RemoveFacts(q.sqWait, e);
    NoDupAppend(q.sqFree, |q.ent|);
    assert Hands(q') == Hands(q);
  }

  /** Timing out one more waiting entry. */
  lemma TimeOutStep(q: Queue, es: seq<nat>, e: nat)
    requires Sweeping(q, es) && e < |q.ent| && q.ent[e].at == InWait(Idle)
    ensures Sweeping(TimeOut(q, e), es + [e]) && |q.ent| <= |TimeOut(q, e).ent|
    ensures forall x :: 0 <= x < |q.ent| && x != e ==> TimeOut(q, e).ent[x] == q.ent[x]
  {
    var q' := TimeOut(q, e);
    TimeOutRest(q, e);
    TimeOutLists(q, e);
    assert e !in es;
    NoDupAppend(es, e);
    forall j | 0 <= j < |es| + 1 ensures Pending(q', (es + [e])[j]) {
      assert j < |es| ==> Pending(q, es[j]);
    }
    hide Lists, CqLists, Sized, AllEntries, AllCqEntries, AllDelivered, AllHomes, Threads;
    assert Core(q');
  }

  lemma CloseInv(q: Queue, e: nat)
    requires Core(q) && e < |q.ent| && q.ent[e].at == Out(Idle) && q.ent[e].status == TimedOut
    ensures Core(Close(q, e))
  {
    var q' := Close(q, e);
    assert EntryOk(q, e);
    assert Hands(q') == Hands(q);
    assert Lists(q') && CqLists(q');
    CloseRest(q, e);
    hide Lists, CqLists, AllEntries, AllCqEntries, AllDelivered, AllHomes, Threads;
  }

  lemma CloseRest(q: Queue, e: nat)
    requires Rest(q) && e < |q.ent| && q.ent[e].at == Out(Idle) && q.ent[e].status == TimedOut
    ensures Rest(Close(q, e))
  {
    var q' := Close(q, e);
    assert EntryOk(q, e) && AtHome(q, q.ent[e].req.value.ticket);
    CloseEntries(q, e);
    CloseCqEntries(q, e);
    CloseHomes(q, e);
    hide AllEntries, AllCqEntries, AllHomes;
  }

  lemma CloseEntries(q: Queue, e: nat)
    requires Rest(q) && e < |q.ent| && q.ent[e].at == Out(Idle) && q.ent[e].status == TimedOut
    ensures AllEntries(Close(q, e))
  {
    var q' := Close(q, e);
    assert EntryOk(q, e) && AtHome(q, q.ent[e].req.value.ticket);
    forall x | 0 <= x < |q'.ent| ensures EntryOk(q', x) { assert EntryOk(q, x); }
  }

  lemma CloseCqEntries(q: Queue, e: nat)
    requires Rest(q) && e < |q.ent| && q.ent[e].at == Out(Idle) && q.ent[e].status == TimedOut
    ensures AllCqEntries(Close(q, e))
  {
    var q' := Close(q, e);
    assert EntryOk(q, e) && AtHome(q, q.ent[e].req.value.ticket);
    forall c | 0 <= c < |q'.cq| ensures CqEntryOk(q', c) { assert CqEntryOk(q, c); }
  }

  lemma CloseHomes(q: Queue, e: nat)
    requires Rest(q) && e < |q.ent| && q.ent[e].at == Out(Idle) && q.ent[e].status == TimedOut
    ensures var q' := Close(q, e); |q'.accepted| == |q'.home| && AllHomes(q')
  {
    var q' := Close(q, e);
    assert EntryOk(q, e) && AtHome(q, q.ent[e].req.value.ticket);
    forall i | 0 <= i < |q'.accepted| ensures AtHome(q', i) { assert AtHome(q, i); }
  }

  lemma CompleteAllInv(q: Queue, e: nat)
    requires Core(q) && (Settled(q) || Completable(q, e))
    ensures Core(DoCompleteAll(q, e)) && (Settled(q) ==> Settled(DoCompleteAll(q, e)))
  {
    hide Core, Settled, Completable, DoCheck, DoTake, DoMove, DoFree, DoPost;
    CheckInv(q, e);
    var q1 := DoTake(DoCheck(q, e), e);
    TakeInv(DoCheck(q, e), e);
    if CanMove(q1, e) {
      MoveInv(q1, e);
      FreeInv(DoMove(q1, e), e);
      PostInv(DoFree(DoMove(q1, e), e), q1.ent[e].at.stage.c);
    }
  }

  /** What a whole completion call leaves alone. */
  ghost predicate OnlyEntry(q: Queue, q': Queue, e: nat) {
    && e < |q.ent| == |q'.ent| && |q'.home| == |q.home| && q'.accepted == q.accepted && q'.size == q.size
    && (forall x :: 0 <= x < |q.ent| && x != e ==> q'.ent[x] == q.ent[x])
    && (forall i :: 0 <= i < |q.home| && q.ent[e].req.Some? && i != q.ent[e].req.value.ticket ==> q'.home[i] == q.home[i])
  }

  /** A successful completion call in closed form: the request goes to completion entry `c`, which
      joins the used list; a waiting submission entry is freed. */
  ghost function Completed(q: Queue, e: nat): Queue
    requires e < |q.ent| && q.ent[e].req.Some? && q.ent[e].req.value.ticket < |q.home|
    requires q.cqFree != [] && q.cqFree[0] < |q.cq|
  {
    var x, c := q.ent[e], q.cqFree[0];
    var q1 := q.(cqFree := q.cqFree[1..], cqUsed := q.cqUsed + [c], cq := q.cq[c := CEntry(x.req, CUsed)],
                 home := q.home[x.req.value.ticket := AtCq(c)]);
    if x.at.InWait? then
      q1.(sqWait := Remove(q.sqWait, e), sqFree := q.sqFree + [e], ent := q.ent[e := x.(req := None, status := Free, at := InFree)])
    else q1
  }

  /** The call is refused: the entry was closed by a timeout, holds no request, or has a null one. */
  ghost predicate Refused(x: Entry) {
    x.req.None? || x.req.value.ptr == 0 || x.status == TimeoutBack || x.status == TimeoutCompleted
  }

  lemma CompleteAllForm(q: Queue, e: nat)
    requires e < |q.ent| && EntryOk(q, e) && (q.cqFree != [] ==> q.cqFree[0] < |q.cq|)
    requires q.ent[e].at.InWait? || q.ent[e].at.Out? ==> q.ent[e].at.stage.Idle?
    ensures var x := q.ent[e];
            if !x.at.InWait? && !x.at.Out? then DoCompleteAll(q, e) == q
            else if Refused(x) then
              DoCompleteAll(q, e) == q.(ent := q.ent[e :=
                if x.req.Some? && x.req.value.ptr != 0 && x.status == TimeoutCompleted
                then x.(status := TimeoutBack, at := if x.ext then Gone else x.at) else x])
            else if q.cqFree == [] then DoCompleteAll(q, e) == q
            else DoCompleteAll(q, e) == Completed(q, e)
  {
    var x := q.ent[e];
    var q1 := DoTake(DoCheck(q, e), e);
    if !x.at.InWait? && !x.at.Out? {
    } else if Refused(x) {
      assert q.ent[e := x] == q.ent;
    } else if q.cqFree == [] {
      assert q1.ent == q.ent[e := x] == q.ent;
    } else {
      var c, r := q.cqFree[0], x.req.value;
      var q2 := DoFree(DoMove(q1, e), e);
      assert q2.cq == q.cq[c := CEntry(Some(r), CPosting)];
      assert DoPost(q2, c).cq == q.cq[c := CEntry(Some(r), CUsed)];
      assert q2.ent == if x.at.InWait? then q.ent[e := x.(req := None, status := Free, at := InFree)] else q.ent[e := x];
      assert q.ent[e := x] == q.ent;
    }
  }

  lemma CompleteAllFrame(q: Queue, e: nat)
    requires Quiet(q) && e < |q.ent| && EntryOk(q, e) && (q.cqFree != [] ==> q.cqFree[0] < |q.cq|)
    ensures OnlyEntry(q, DoCompleteAll(q, e), e) && Quiet(DoCompleteAll(q, e))
    ensures q.ent[e].at.Out? && q.ent[e].status == TimedOut ==> DoCompleteAll(q, e).ent[e] == q.ent[e]
  {
    hide DoCompleteAll;
    CompleteAllForm(q, e);
  }

  lemma CqHead(q: Queue)
    requires CqLists(q)
    ensures q.cqFree != [] ==> q.cqFree[0] < |q.cq|
  {
    assert q.cqFree != [] ==> q.cqFree[0] in q.cqFree;
  }

  lemma CloseFrame(q: Queue, e: nat)
    requires Quiet(q) && e < |q.ent| && q.ent[e].req.Some? && q.ent[e].req.value.ticket < |q.home|
    ensures OnlyEntry(q, Close(q, e), e) && Quiet(Close(q, e))
    ensures Close(q, e).ent[e].status == TimeoutCompleted
  {
  }

  lemma OnlyEntryTrans(q: Queue, q1: Queue, q2: Queue, e: nat)
    requires OnlyEntry(q, q1, e) && OnlyEntry(q1, q2, e) && q1.ent[e].req == q.ent[e].req
    ensures OnlyEntry(q, q2, e)
  {
  }

  /** Posting the completion of a timed-out entry, if asked to. */
  lemma PostPending(q: Queue, e: nat, complete: bool)
    requires Core(q) && Quiet(q) && Pending(q, e)
    ensures var q1 := if complete then DoCompleteAll(q, e) else q;
            Core(q1) && Quiet(q1) && OnlyEntry(q, q1, e) && q1.ent[e] == q.ent[e]
  {
    assert EntryOk(q, e);
    CqHead(q);
    hide Core, EntryOk, Quiet, DoCompleteAll, OnlyEntry;
    CompleteAllInv(q, e);
    CompleteAllFrame(q, e);
    if !complete {
      SameFrame(q, e);
    }
  }

  lemma SameFrame(q: Queue, e: nat)
    requires e < |q.ent|
    ensures OnlyEntry(q, q, e)
  {
  }

  lemma SweepShrinks(q: Queue, q2: Queue, es: seq<nat>)
    requires Sweeping(q, es) && es != [] && Core(q2) && Quiet(q2)
    requires OnlyEntry(q, q2, es[|es| - 1]) && q2.ent[es[|es| - 1]].status != TimedOut
    ensures Sweeping(q2, es[..|es| - 1])
  {
    hide Core, Quiet;
    var e, rest := es[|es| - 1], es[..|es| - 1];
    assert Pending(q, e);
    forall j | 0 <= j < |rest| ensures Pending(q2, rest[j]) {
      assert Pending(q, es[j]) && es[j] != e;
      OtherTicket(q, es[j], e);
    }
    assert forall x :: x in es ==> x == e || x in rest;
  }

  /** Closing the last of the timed-out entries. */
  lemma CloseStep(q: Queue, es: seq<nat>, complete: bool)
    requires Sweeping(q, es) && es != []
    ensures Sweeping(CloseOne(q, es[|es| - 1], complete), es[..|es| - 1])
  {
    hide Core, Quiet, DoCompleteAll, Close;
    var e := es[|es| - 1];
    assert Pending(q, e);
    var q1 := if complete then DoCompleteAll(q, e) else q;
    PostPending(q, e, complete);
    CloseInv(q1, e);
    CloseFrame(q1, e);
    OnlyEntryTrans(q, q1, Close(q1, e), e);
    SweepShrinks(q, Close(q1, e), es);
  }

  /** Two entries that both hold their request hold different ones. */
  lemma OtherTicket(q: Queue, e: nat, x: nat)
    requires e < |q.ent| && x < |q.ent| && e != x && Here(q, e) && Here(q, x)
    ensures q.ent[e].req.value.ticket != q.ent[x].req.value.ticket
  {
  }

  lemma {:induction false} CloseAllInv(q: Queue, es: seq<nat>, complete: bool)
    requires Sweeping(q, es)
    ensures Sweeping(CloseAll(q, es, complete), [])
    decreases |es|
  {
    if es != [] {
      CloseStep(q, es, complete);
      hide Sweeping;
      CloseAllInv(CloseOne(q, es[|es| - 1], complete), es[..|es| - 1], complete);
    }
  }

  lemma {:induction false} TimeOutAllInv(q: Queue, es: seq<nat>)
    requires Sweeping(q, []) && NoDup(es)
    requires forall j :: 0 <= j < |es| ==> es[j] < |q.ent| && q.ent[es[j]].at == InWait(Idle)
    ensures Sweeping(TimeOutAll(q, es), es)
    ensures |q.ent| <= |TimeOutAll(q, es).ent|
    ensures forall x :: 0 <= x < |q.ent| && x !in es ==> TimeOutAll(q, es).ent[x] == q.ent[x]
    decreases |es|
  {
    hide Sweeping, TimeOut;
    if es != [] {
      var rest, e := es[..|es| - 1], es[|es| - 1];
      TimeOutAllInv(q, rest);
      assert e !in rest;
      TimeOutStep(TimeOutAll(q, rest), rest, e);
      assert rest + [e] == es;
    }
  }

  lemma {:induction false} FilterFacts(es: seq<nat>, keep: set<nat>)
    requires NoDup(es)
    ensures NoDup(Filter(es, keep)) && forall e :: e in Filter(es, keep) <==> e in es && e in keep
  {
    if es != [] {
      FilterFacts(es[..|es| - 1], keep);
      assert es == es[..|es| - 1] + [es[|es| - 1]];
    }
  }

  lemma SweepInv(q: Queue, expired: set<nat>, complete: bool)
    requires Inv(q) && Quiet(q)
    ensures Inv(DoSweep(q, expired, complete)) && Quiet(DoSweep(q, expired, complete))
  {
    var es := Filter(q.sqWait, expired);
    FilterFacts(q.sqWait, expired);
    assert Sweeping(q, []);
    forall j | 0 <= j < |es| ensures es[j] < |q.ent| && q.ent[es[j]].at == InWait(Idle) {
      assert es[j] in es;
    }
    hide Core, Quiet;
    TimeOutAllInv(q, es);
    CloseAllInv(TimeOutAll(q, es), es, complete);
  }

  lemma TimedStepInv(q: Queue, a: Action)
    requires Inv(q) && Quiet(q) && Timed(a)
    ensures Inv(Step(q, a)) && Quiet(Step(q, a))
  {
    if a.CompleteAll? {
      if a.e < |q.ent| {
        assert EntryOk(q, a.e);
        CqHead(q);
        hide Core, Settled, Quiet, DoCompleteAll;
        CompleteAllInv(q, a.e);
        CompleteAllFrame(q, a.e);
      } else {
        assert Step(q, a) == q;
      }
    } else if a.Sweep? {
      hide Inv, Quiet, DoSweep;
      SweepInv(q, a.expired, a.complete);
    } else {
      FineStepInv(q, a);
      hide Core;
      QuietStep(q, a);
    }
  }

  lemma QuietStep(q: Queue, a: Action)
    requires Quiet(q) && Timed(a) && Fine(a)
    ensures Quiet(Step(q, a))
  {
  }

  lemma {:induction false} SizeKept(q: Queue, a: Action)
    ensures Step(q, a).size == q.size
  {
    hide DoCompleteAll, TimeOutAll, CloseAll;
    if a.CompleteAll? {
      CompleteAllSize(q, a.e);
    } else if a.Sweep? {
      var es := Filter(q.sqWait, a.expired);
      TimeOutSize(q, es);
      CloseSize(TimeOutAll(q, es), es, a.complete);
    }
  }

  lemma {:induction false} TimeOutSize(q: Queue, es: seq<nat>)
    ensures TimeOutAll(q, es).size == q.size
    decreases |es|
  {
    if es != [] {
      TimeOutSize(q, es[..|es| - 1]);
    }
  }

  lemma CompleteAllSize(q: Queue, e: nat)
    ensures DoCompleteAll(q, e).size == q.size
  {
  }

  lemma {:induction false} CloseSize(q: Queue, es: seq<nat>, complete: bool)
    ensures CloseAll(q, es, complete).size == q.size
    decreases |es|
  {
    if es != [] {
      CompleteAllSize(q, es[|es| - 1]);
      hide DoCompleteAll;
      CloseSize(CloseOne(q, es[|es| - 1], complete), es[..|es| - 1], complete);
    }
  }

  /** Over every run with timeout sweeps, whole completion calls and sweeps being single steps:
      every request is in at most one place and delivered at most once, and the free, used and
      waiting entries and those in a thread's hand are as many as the queue was made with. */
  lemma {:induction false} TimedRun(n: nat, actions: seq<Action>)
    requires forall j :: 0 <= j < |actions| ==> Timed(actions[j])
    ensures var q := Run(Init(n), actions);
            && Inv(q) && Quiet(q) && q.size == n
            && |q.sqFree| + |q.sqUsed| + |q.sqWait| + |Hands(q)| == n
  {
    var q := Run(Init(n), actions);
    if actions == [] {
      InitInv(n);
    } else {
      var last := |actions| - 1;
      TimedRun(n, actions[..last]);
      var before := Run(Init(n), actions[..last]);
      SizeKept(before, actions[last]);
      assert Sized(q) by {
        hide Step;
        TimedStepInv(before, actions[last]);
      }
      hide Inv, Step, Quiet;
      TimedStepInv(before, actions[last]);
    }
  }

  /** Also there no request is in two places or delivered twice. */
  lemma TimedAtMostOnce(n: nat, actions: seq<Action>)
    requires forall j :: 0 <= j < |actions| ==> Timed(actions[j])
    ensures var q := Run(Init(n), actions);
            && (forall i, h, h' :: 0 <= i < |q.accepted| && Located(q, i, h) && Located(q, i, h') ==> h == h')
            && (forall j, k :: 0 <= j < k < |q.delivered| ==> q.delivered[j].ticket != q.delivered[k].ticket)
  {
    var q := Run(Init(n), actions);
    TimedRun(n, actions);
    hide Run, Located;
    DeliveredOnce(q);
    forall i, h, h' | 0 <= i < |q.accepted| && Located(q, i, h) && Located(q, i, h') ensures h == h' {
      OnePlace(q, i);
    }
  }

  /** A late completion of a timed-out entry is refused: it posts nothing, delivers nothing and
      moves no entry between the lists. */
  lemma LateCompletionRefused(q: Queue, e: nat)
    requires Inv(q) && Quiet(q) && e < |q.ent| && q.ent[e].at.Out?
    ensures var q' := DoCompleteAll(q, e);
            q' == q.(ent := q'.ent) && |q'.ent| == |q.ent|
            && (forall x :: 0 <= x < |q.ent| && x != e ==> q'.ent[x] == q.ent[x])
    ensures var x := q.ent[e];
            x.status == TimeoutCompleted && x.req.Some? && x.req.value.ptr != 0 ==>
              DoCompleteAll(q, e).ent[e].status == TimeoutBack && (x.ext <==> DoCompleteAll(q, e).ent[e].at.Gone?)
  {
    assert EntryOk(q, e);
    CqHead(q);
    hide Core, DoCompleteAll;
    CompleteAllForm(q, e);
  }
}
