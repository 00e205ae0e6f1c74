/** Host reads and writes as they run (host/nvme_host.c): one thread walks through the commands of a
    request while completions of any commands, and the requests of other threads, come in between. */
module HostRequests {
  import opened Sequences
  import opened HostCtx

  /** The search for the status to report. */
  method FirstFailed(status: seq<nat>, failed: nat) returns (r: nat)
    requires failed == 0 <==> forall i :: 0 <= i < |status| ==> status[i] == 0
    ensures FirstFailure(status, r)
  {
    r := 0;
    if failed != 0 {
      for i := 0 to |status|
        invariant forall j :: 0 <= j < i ==> status[j] == 0
      {
        if status[i] != 0 {
          return status[i];
        }
      }
    }
  }

  /** What other threads leave alone: a context with commands its own thread has still to hand over. */
  ghost predicate Kept(s: State, t: State, x: nat) {
    x in s.used && x in t.used && x < |s.ctxs| && x < |t.ctxs| &&
    t.ctxs[x].req == s.ctxs[x].req && |t.ctxs[x].phase| == |s.ctxs[x].phase| &&
    |t.ctxs[x].status| == |s.ctxs[x].status| == |s.ctxs[x].phase| &&
    forall i :: 0 <= i < |s.ctxs[x].phase| ==>
      (s.ctxs[x].phase[i] == Idle <==> t.ctxs[x].phase[i] == Idle) &&
      (s.ctxs[x].phase[i] == Counted ==>
         t.ctxs[x].phase[i] == Counted && t.ctxs[x].status[i] == s.ctxs[x].status[i])
  }

  ghost predicate HasIdle(s: State, x: nat) {
    x in s.used && x < |s.ctxs| && Idle in s.ctxs[x].phase
  }

  /** The running thread's context, with the first `i` of its `n` commands handed over. */
  ghost predicate Mine(s: State, x: nat, i: nat, n: nat) {
    x in s.used && x < |s.ctxs| && |s.ctxs[x].phase| == n == |s.ctxs[x].status| &&
    forall j :: 0 <= j < n ==> (s.ctxs[x].phase[j] == Idle <==> i <= j)
  }

  ghost predicate NoIdle(s: State, r: nat) {
    forall x :: x in s.used && x < |s.ctxs| && s.ctxs[x].req == r ==> Idle !in s.ctxs[x].phase
  }

  /** The commands of request r from number k on completed as not submitted. */
  ghost predicate Refused(s: State, r: nat, n: nat, k: nat) {
    (forall x :: x in s.used && x < |s.ctxs| && s.ctxs[x].req == r ==>
       |s.ctxs[x].status| == n && forall j :: k <= j < n ==> s.ctxs[x].status[j] == NOT_SUBMITTED) &&
    (forall m :: 0 <= m < |s.calls| && s.calls[m].req == r ==>
       |s.calls[m].all| == n && forall j :: k <= j < n ==> s.calls[m].all[j] == NOT_SUBMITTED)
  }

  /** The first submission that is not accepted, or their number. */
  ghost predicate FirstRefusal(accepted: seq<bool>, k: nat) {
    k <= |accepted| && (forall j :: 0 <= j < k ==> accepted[j]) && (k < |accepted| ==> !accepted[k])
  }

  /** A request without a command keeps its context whatever other threads do. */
  ghost predicate OrphansKept(s: State, t: State) {
    forall x: nat :: Orphan(s, x) ==> Orphan(t, x) && t.ctxs[x] == s.ctxs[x]
  }

  class Host {
    var ctxs: seq<Ctx>
    var free: seq<nat>
    var used: seq<nat>
    var calls: seq<Call>
    var started: nat

    ghost function View(): State
      reads this
    {
      State(ctxs, free, used, calls, started)
    }

    ghost predicate Valid()
      reads this
    {
      Inv(View())
    }

    constructor (entries: nat)
      ensures Valid() && calls == [] && started == 0 && |ctxs| == entries
    {
      var blank := seq(entries, _ => Ctx(0, [], [], 0, 0));
      ctxs := blank;
      var ids := seq(entries, i requires 0 <= i < entries => i);
      free, used, calls, started := ids, [], [], 0;
      InitInv(blank, ids);
    }

    /** nvmeh_ctxw_get and the setting up of the context for a request of `n` commands. */
    method Begin(n: nat) returns (x: Option<nat>)
      requires Valid()
      modifies this
      ensures Valid()
      ensures old(free) == [] ==> x == None && View() == old(View())
      ensures old(free) != [] ==> x == Some(old(free)[0]) && old(free)[0] < |old(ctxs)| && View() == BeginState(old(View()), n)
    {
      if free == [] {
        return None;
      }
      x := Some(free[0]);
      assert free[0] in free;
      BeginInv(View(), n);
      ctxs := ctxs[free[0] := Ctx(started, seq(n, _ => 0), seq(n, _ => Idle), 0, 0)];
      used, free := used + [free[0]], free[1..];
      started := started + 1;
    }

    /** The command is handed to a queue. */
    method Send(x: nat, i: nat)
      requires Valid() && x in used && x < |ctxs| && i < |ctxs[x].phase| && ctxs[x].phase[i] == Idle
      modifies this`ctxs
      ensures Valid()
      ensures View() == WithCtx(old(View()), x, old(ctxs[x]).(phase := old(ctxs[x]).phase[i := Sent]))
    {
      var c := ctxs[x];
      assert CtxOk(c);
      OtherStep(c.phase, c.status, i, Sent, c.status[i]);
      assert c.status[i := c.status[i]] == c.status;
      WithCtxInv(View(), x, c.(phase := c.phase[i := Sent]));
      ctxs := ctxs[x := c.(phase := c.phase[i := Sent])];
    }

    /** The first half of nvmeh_callback, outside the lock: the command's own status. */
    method Store(x: nat, i: nat, status: nat)
      requires Valid() && x in used && x < |ctxs| && i < |ctxs[x].phase| && i < |ctxs[x].status|
      requires ctxs[x].phase[i] in {Idle, Sent}
      modifies this`ctxs
      ensures Valid()
      ensures View() == WithCtx(old(View()), x, old(ctxs[x]).(phase := old(ctxs[x]).phase[i := Stored],
                                                               status := old(ctxs[x]).status[i := status]))
    {
      var c := ctxs[x];
      assert CtxOk(c);
      OtherStep(c.phase, c.status, i, Stored, status);
      WithCtxInv(View(), x, c.(phase := c.phase[i := Stored], status := c.status[i := status]));
      ctxs := ctxs[x := c.(phase := c.phase[i := Stored], status := c.status[i := status])];
    }

    /** The rest of nvmeh_callback. The one that counts the last command calls the user, with the
        status of the first failed command, and gives the context back. */
    method Count(x: nat, i: nat)
      requires Valid() && x in used && x < |ctxs| && i < |ctxs[x].phase| && ctxs[x].phase[i] == Stored
      modifies this
      ensures Valid() && started == old(started) && old(calls) <= calls
      ensures var c := old(ctxs[x]); var p := c.phase[i := Counted];
              if exists j :: 0 <= j < |p| && p[j] != Counted
              then View() == WithCtx(old(View()), x, CountedCtx(c, i))
              else exists r :: FirstFailure(c.status, r) && View() == FinishState(old(View()), x, CountedCtx(c, i), r)
    {
      var c := ctxs[x];
      assert CtxOk(c);
      CountedStep(c.phase, c.status, i);
      AllCounted(c.phase[i := Counted], c.status);
      var d := CountedCtx(c, i);
      ghost var was := View();
      if d.completed >= |d.phase| {
        var r := FirstFailed(d.status, d.failed);
        FinishInv(was, x, d, r);
        ctxs := ctxs[x := d];
        calls := calls + [Call(d.req, r, d.status)];
        used, free := Remove(used, x), free + [x];
        assert View() == FinishState(was, x, d, r);
      } else {
        WithCtxInv(was, x, d);
        ctxs := ctxs[x := d];
      }
    }

    /** nvmeh_rw once the request is accepted as `n` commands. Without a context it fails and nothing
        happens. `accepted` says which submissions the queues take. Every command ends up handed to a queue or, from the first failed
        submission on, completed as not submitted: none is left that would hold the callback back. */
    method Rw(n: nat, accepted: seq<bool>) returns (ok: bool, ghost k: nat)
      requires Valid() && n == |accepted|
      modifies this
      ensures Valid() && old(calls) <= calls
      ensures n == 0 && old(free) != [] ==> ok && Orphan(View(), old(free)[0]) && ctxs[old(free)[0]].req == old(started)
      ensures old(free) == [] ==> !ok && View() == old(View())
      ensures old(free) != [] ==> old(started) < started && NoIdle(View(), old(started))
      ensures old(free) != [] ==> (ok <==> k == n) && FirstRefusal(accepted, k) && Refused(View(), old(started), n, k)
    {
      k := 0;
      var got := Begin(n);
      if got == None {
        return false, 0;
      }
      var x := got.value;
      var i := HandOver(x, n, accepted);
      k := i;
      ok := i == n;
      if !ok {
        CompleteRest(x, i, n);
      } else {
        OnlyThis(View(), x);
      }
    }

    /** The submission loop; it stops at the first submission that is not accepted. */
    method HandOver(x: nat, n: nat, accepted: seq<bool>) returns (i: nat)
      requires Valid() && n == |accepted| && Mine(View(), x, 0, n)
      modifies this
      ensures Valid() && i <= n && old(calls) <= calls && old(started) <= started && Mine(View(), x, i, n)
      ensures n == 0 ==> View() == old(View())
      ensures ctxs[x].req == old(ctxs[x]).req && FirstRefusal(accepted, i)
    {
      i := 0;
      while i < n
        invariant Valid() && i <= n && old(calls) <= calls && old(started) <= started && Mine(View(), x, i, n)
        invariant i == 0 ==> View() == old(View())
        invariant ctxs[x].req == old(ctxs[x]).req && forall j :: 0 <= j < i ==> accepted[j]
      {
        if !accepted[i] { return; }
        Send(x, i);
        i := i + 1;
        if i < n {
          assert ctxs[x].phase[i] == Idle;
          Others(Some(x));
        }
      }
    }

    /** A command that is not the last one left is completed as not submitted. */
    method FailOne(x: nat, i: nat, n: nat)
      requires Valid() && i + 1 < n && Mine(View(), x, i, n)
      modifies this
      ensures Valid() && old(calls) <= calls && started == old(started) && Mine(View(), x, i + 1, n)
      ensures ctxs[x].req == old(ctxs[x]).req
      ensures ctxs[x].phase == old(ctxs[x]).phase[i := Counted] && ctxs[x].status == old(ctxs[x]).status[i := NOT_SUBMITTED]
    {
      hide Inv, FirstFailure;
      Store(x, i, NOT_SUBMITTED);
      assert ctxs[x].phase[i := Counted][i + 1] == Idle;
      Count(x, i);
    }

    /** The REQUEUE loop. */
    method CompleteRest(x: nat, k: nat, n: nat)
      requires Valid() && k < n && Mine(View(), x, k, n)
      modifies this
      ensures Valid() && old(calls) <= calls && old(started) <= started
      ensures NoIdle(View(), old(ctxs[x]).req) && Refused(View(), old(ctxs[x]).req, n, k)
    {
      hide Inv, FirstFailure, Refused, NoIdle;
      ghost var r := ctxs[x].req;
      var i := k;
      while i < n - 1
        invariant Valid() && k <= i < n && old(calls) <= calls && old(started) <= started
        invariant Mine(View(), x, i, n) && ctxs[x].req == r
        invariant forall j :: k <= j < i ==> ctxs[x].phase[j] == Counted && ctxs[x].status[j] == NOT_SUBMITTED
      {
        FailOne(x, i, n);
        i := i + 1;
        assert ctxs[x].phase[i] == Idle;
        Others(Some(x));
      }
      Store(x, i, NOT_SUBMITTED);
      OnlyThis(View(), x);
      ghost var was := View();
      Count(x, i);
      LastCount(was, View(), x, i, n, k);
    }

    /** Any number of steps of other threads. `mine` is the context of the running thread, if any. */
    method Others(mine: Option<nat>)
      requires Valid() && (mine.Some? ==> HasIdle(View(), mine.value))
      modifies this
      ensures Valid() && old(calls) <= calls && old(started) <= started
      ensures mine.Some? ==> Kept(old(View()), View(), mine.value)
      ensures OrphansKept(old(View()), View())
    {
      var k: int := *;
      var steps := if k < 0 then 0 else k;
      KeptRefl(View(), mine);
      for n := 0 to steps
        invariant Valid() && old(calls) <= calls && old(started) <= started
        invariant mine.Some? ==> HasIdle(View(), mine.value) && Kept(old(View()), View(), mine.value)
        invariant OrphansKept(old(View()), View())
      {
        ghost var was := View();
        OneStep(mine);
        if mine.Some? {
          KeptTrans(old(View()), was, View(), mine.value);
        }
      }
    }

    /** One step of another thread: a completion, the start of a request, or a command of another
        request handed over. */
    method OneStep(mine: Option<nat>)
      requires Valid() && (mine.Some? ==> HasIdle(View(), mine.value))
      modifies this
      ensures Valid() && old(calls) <= calls && old(started) <= started
      ensures mine.Some? ==> HasIdle(View(), mine.value) && Kept(old(View()), View(), mine.value)
      ensures OrphansKept(old(View()), View())
    {
      hide Inv, FirstFailure;
      var n: nat, x: nat, i: nat, status: nat := *, *, *, *;
      ghost var was := View();
      UsedOk(was);
      KeptRefl(was, mine);
      var begins: bool := *;
      if begins {
        BeginKeepsOrphans(was, n);
        var y := Begin(n);
        if mine.Some? { KeptBegin(was, n, mine.value); }
      } else if x in used && x < |ctxs| && i < |ctxs[x].phase| {
        if ctxs[x].phase[i] == Sent {
          Store(x, i, status);
          if mine.Some? { KeptWith(was, x, i, Stored, status, mine.value); }
        } else if ctxs[x].phase[i] == Stored {
          Count(x, i);
          CountKeepsOrphans(was, View(), x, i);
          if mine.Some? { KeptCount(was, View(), x, i, mine.value); }
        } else if ctxs[x].phase[i] == Idle && mine != Some(x) {
          ghost var same := ctxs[x].status[i];
          assert ctxs[x].status[i := same] == ctxs[x].status;
          Send(x, i);
          if mine.Some? { KeptWith(was, x, i, Sent, same, mine.value); }
        }
      }
    }
  }

  /** The context after counting command i. */
  function CountedCtx(c: Ctx, i: nat): Ctx
    requires i < |c.phase| && |c.status| == |c.phase|
  {
    c.(phase := c.phase[i := Counted], completed := c.completed + 1,
       failed := c.failed + if c.status[i] != 0 then 1 else 0)
  }

  lemma InitInv(ctxs: seq<Ctx>, ids: seq<nat>)
    requires |ids| == |ctxs| && forall i :: 0 <= i < |ids| ==> ids[i] == i
    ensures Inv(State(ctxs, ids, [], [], 0))
  {
    var s := State(ctxs, ids, [], [], 0);
    forall x | 0 <= x < |ctxs| ensures x in ids {
      assert ids[x] == x;
    }
    assert Pool(s);
  }

  /** A request in a context is in no other, and has had no callback. */
  lemma OnlyThis(s: State, x: nat)
    requires Inv(s) && x in s.used
    ensures x < |s.ctxs|
    ensures forall y :: y in s.used && s.ctxs[y].req == s.ctxs[x].req ==> y == x
    ensures forall m :: 0 <= m < |s.calls| ==> s.calls[m].req != s.ctxs[x].req
  {
    var r := s.ctxs[x].req;
    assert CtxOk(s.ctxs[x]);
    assert Held(s, r);
    assert !Called(s, r);
  }

  lemma LastCount(s: State, t: State, x: nat, i: nat, n: nat, k: nat)
    requires Inv(s) && Inv(t) && x in s.used && x < |s.ctxs| && i < |s.ctxs[x].phase| == |s.ctxs[x].status| == n
    requires Idle !in s.ctxs[x].phase && forall j :: k <= j < n ==> s.ctxs[x].status[j] == NOT_SUBMITTED
    requires t == WithCtx(s, x, CountedCtx(s.ctxs[x], i)) || exists r :: t == FinishState(s, x, CountedCtx(s.ctxs[x], i), r)
    ensures NoIdle(t, s.ctxs[x].req) && Refused(t, s.ctxs[x].req, n, k)
  {
    OnlyThis(s, x);
    RemoveFacts(s.used, x);
    var c := CountedCtx(s.ctxs[x], i);
    assert forall j :: 0 <= j < n ==> c.phase[j] != Idle by {
      assert forall j :: 0 <= j < n ==> s.ctxs[x].phase[j] in s.ctxs[x].phase;
    }
  }

  lemma UsedOk(s: State)
    requires Inv(s)
    ensures forall x :: x in s.used ==> x < |s.ctxs| && |s.ctxs[x].status| == |s.ctxs[x].phase|
    ensures s.free != [] ==> s.free[0] < |s.ctxs|
  {
    assert s.free != [] ==> s.free[0] in s.free;
  }

  lemma KeptRefl(s: State, mine: Option<nat>)
    requires Inv(s) && (mine.Some? ==> HasIdle(s, mine.value))
    ensures mine.Some? ==> Kept(s, s, mine.value)
  {
    if mine.Some? { assert CtxOk(s.ctxs[mine.value]); }
  }

  lemma KeptTrans(s: State, t: State, u: State, x: nat)
    requires Kept(s, t, x) && Kept(t, u, x)
    ensures Kept(s, u, x)
  {
  }

  lemma KeptBegin(s: State, n: nat, x: nat)
    requires Inv(s) && HasIdle(s, x) && (s.free != [] ==> s.free[0] < |s.ctxs|)
    ensures s.free != [] ==> HasIdle(BeginState(s, n), x) && Kept(s, BeginState(s, n), x)
    ensures Kept(s, s, x)
  {
    assert CtxOk(s.ctxs[x]);
    if s.free != [] {
      assert s.free[0] in s.free;
      assert BeginState(s, n).ctxs[x] == s.ctxs[x];
    }
  }

  lemma KeptWith(s: State, x: nat, i: nat, f: Phase, v: nat, mine: nat)
    requires Inv(s) && x in s.used && x < |s.ctxs| && HasIdle(s, mine)
    requires i < |s.ctxs[x].phase| == |s.ctxs[x].status| && f != Idle && f != Counted
    requires s.ctxs[x].phase[i] == Sent || (s.ctxs[x].phase[i] == Idle && x != mine)
    ensures var c := s.ctxs[x];
            var t := WithCtx(s, x, c.(phase := c.phase[i := f], status := c.status[i := v]));
            HasIdle(t, mine) && Kept(s, t, mine)
  {
    assert CtxOk(s.ctxs[mine]);
    var c := s.ctxs[x];
    var t := WithCtx(s, x, c.(phase := c.phase[i := f], status := c.status[i := v]));
    var k :| 0 <= k < |s.ctxs[mine].phase| && s.ctxs[mine].phase[k] == Idle;
    assert t.ctxs[mine].phase[k] == Idle;
  }

  lemma BeginKeepsOrphans(s: State, n: nat)
    requires Inv(s) && (s.free != [] ==> s.free[0] < |s.ctxs|)
    ensures s.free != [] ==> OrphansKept(s, BeginState(s, n))
  {
    assert s.free != [] ==> s.free[0] in s.free;
  }

  lemma CountKeepsOrphans(s: State, t: State, x: nat, i: nat)
    requires Inv(s) && x in s.used && x < |s.ctxs| && i < |s.ctxs[x].phase| == |s.ctxs[x].status|
    requires t == WithCtx(s, x, CountedCtx(s.ctxs[x], i)) || exists r :: t == FinishState(s, x, CountedCtx(s.ctxs[x], i), r)
    ensures OrphansKept(s, t)
  {
    RemoveFacts(s.used, x);
  }

  lemma KeptCount(s: State, t: State, x: nat, i: nat, mine: nat)
    requires Inv(s) && x in s.used && x < |s.ctxs| && HasIdle(s, mine)
    requires i < |s.ctxs[x].phase| == |s.ctxs[x].status| && s.ctxs[x].phase[i] == Stored
    requires var c := s.ctxs[x]; var p := c.phase[i := Counted];
             if exists j :: 0 <= j < |p| && p[j] != Counted
             then t == WithCtx(s, x, CountedCtx(c, i))
             else exists r :: t == FinishState(s, x, CountedCtx(c, i), r)
    ensures HasIdle(t, mine) && Kept(s, t, mine)
  {
    assert CtxOk(s.ctxs[mine]);
    RemoveFacts(s.used, x);
    var k :| 0 <= k < |s.ctxs[mine].phase| && s.ctxs[mine].phase[k] == Idle;
    if mine == x {
      assert s.ctxs[x].phase[i := Counted][k] == Idle;
    }
    assert t.ctxs[mine].phase[k] == Idle;
  }
}
