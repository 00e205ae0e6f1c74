/** Completion of host requests: the contexts that collect the completions of a request's commands
    (host/nvme_host.c). */
module HostCtx {
  import opened Sequences

  const NOT_SUBMITTED: nat := 0x0289

  /** Where a command of a request is: not handed to a queue yet, handed over, its status stored by
      the callback, or counted by it under the lock. */
  datatype Phase = Idle | Sent | Stored | Counted

  /** nvmeh_ctx, for request `req`. */
  datatype Ctx = Ctx(req: nat, status: seq<nat>, phase: seq<Phase>, completed: nat, failed: nat)

  /** A call of the user's callback; `all` are the statuses of the request's commands at the call. */
  datatype Call = Call(req: nat, status: nat, all: seq<nat>)

  function NumCounted(p: seq<Phase>): (n: nat)
    ensures n <= |p|
  {
    if p == [] then 0 else NumCounted(p[..|p| - 1]) + if p[|p| - 1] == Counted then 1 else 0
  }

  function NumFailed(p: seq<Phase>, s: seq<nat>): nat
    requires |p| == |s|
  {
    if p == [] then 0
    else NumFailed(p[..|p| - 1], s[..|s| - 1]) + if p[|p| - 1] == Counted && s[|s| - 1] != 0 then 1 else 0
  }

  lemma {:induction false} CountedStep(p: seq<Phase>, s: seq<nat>, i: nat)
    requires i < |p| == |s| && p[i] != Counted
    ensures NumCounted(p[i := Counted]) == NumCounted(p) + 1
    ensures NumFailed(p[i := Counted], s) == NumFailed(p, s) + if s[i] != 0 then 1 else 0
  {
    var n := |p| - 1;
    var q := p[i := Counted];
    if i < n {
      assert q[..n] == p[..n][i := Counted];
      CountedStep(p[..n], s[..n], i);
    } else {
      assert q[..n] == p[..n];
    }
  }

  lemma {:induction false} OtherStep(p: seq<Phase>, s: seq<nat>, i: nat, f: Phase, v: nat)
    requires i < |p| == |s| && p[i] != Counted && f != Counted
    ensures NumCounted(p[i := f]) == NumCounted(p)
    ensures NumFailed(p[i := f], s[i := v]) == NumFailed(p, s)
  {
    var n := |p| - 1;
    if i < n {
      assert p[i := f][..n] == p[..n][i := f] && s[i := v][..n] == s[..n][i := v];
      OtherStep(p[..n], s[..n], i, f, v);
    } else {
      assert p[i := f][..n] == p[..n] && s[i := v][..n] == s[..n];
    }
  }

  lemma {:induction false} AllCounted(p: seq<Phase>, s: seq<nat>)
    requires |p| == |s|
    ensures NumCounted(p) == |p| <==> forall i :: 0 <= i < |p| ==> p[i] == Counted
    ensures NumCounted(p) == |p| ==> (NumFailed(p, s) == 0 <==> forall i :: 0 <= i < |s| ==> s[i] == 0)
  {
    if p != [] {
      var n := |p| - 1;
      AllCounted(p[..n], s[..n]);
      assert forall i :: 0 <= i < n ==> p[i] == p[..n][i] && s[i] == s[..n][i];
    }
  }

  lemma {:induction false} NoneCounted(p: seq<Phase>, s: seq<nat>)
    requires |p| == |s| && forall i :: 0 <= i < |p| ==> p[i] == Idle
    ensures NumCounted(p) == 0 && NumFailed(p, s) == 0
  {
    if p != [] { NoneCounted(p[..|p| - 1], s[..|s| - 1]); }
  }

  /** The status of the lowest-index failed command, and success when none failed. */
  ghost predicate FirstFailure(s: seq<nat>, r: nat) {
    (r == 0 && forall i :: 0 <= i < |s| ==> s[i] == 0) ||
    (r != 0 && exists k :: 0 <= k < |s| && s[k] == r && forall i :: 0 <= i < k ==> s[i] == 0)
  }

  /** A context in use: its counters count, and at least one command is still out, unless the request
      has no command at all. */
  ghost predicate CtxOk(c: Ctx) {
    |c.status| == |c.phase| && c.completed == NumCounted(c.phase) && (c.phase == [] || c.completed < |c.phase|) &&
    c.failed == NumFailed(c.phase, c.status)
  }

  /** The pool of contexts, the callbacks so far and the number of requests that got a context. */
  datatype State = State(ctxs: seq<Ctx>, free: seq<nat>, used: seq<nat>, calls: seq<Call>, started: nat)

  ghost predicate Pool(s: State) {
    NoDup(s.free) && NoDup(s.used) &&
    (forall x :: x in s.free ==> x < |s.ctxs| && x !in s.used) &&
    (forall x :: x in s.used ==> x < |s.ctxs|) &&
    (forall x :: 0 <= x < |s.ctxs| ==> x in s.free || x in s.used)
  }

  ghost predicate Contexts(s: State)
    requires Pool(s)
  {
    (forall x :: x in s.used ==> CtxOk(s.ctxs[x]) && s.ctxs[x].req < s.started) &&
    (forall x, y :: x in s.used && y in s.used && x != y ==> s.ctxs[x].req != s.ctxs[y].req)
  }

  ghost predicate Calls(calls: seq<Call>, started: nat) {
    (forall k :: 0 <= k < |calls| ==> calls[k].req < started && FirstFailure(calls[k].all, calls[k].status)) &&
    (forall k, m :: 0 <= k < m < |calls| ==> calls[k].req != calls[m].req)
  }

  ghost predicate Called(s: State, r: nat) { exists k :: 0 <= k < |s.calls| && s.calls[k].req == r }

  ghost predicate Held(s: State, r: nat) {
    exists x :: x in s.used && x < |s.ctxs| && s.ctxs[x].req == r
  }

  /** Every request either has exactly one context, or got exactly one callback. */
  ghost predicate Inv(s: State) {
    Pool(s) && Contexts(s) && Calls(s.calls, s.started) &&
    (forall r :: 0 <= r < s.started ==> (Called(s, r) || Held(s, r)) && !(Called(s, r) && Held(s, r)))
  }

  // ----- The steps -----

  function BeginState(s: State, n: nat): State
    requires s.free != [] && s.free[0] < |s.ctxs|
  {
    var x := s.free[0];
    State(s.ctxs[x := Ctx(s.started, seq(n, _ => 0), seq(n, _ => Idle), 0, 0)], s.free[1..], s.used + [x],
          s.calls, s.started + 1)
  }

  /** A change inside one context. */
  function WithCtx(s: State, x: nat, c: Ctx): State
    requires x < |s.ctxs|
  {
    s.(ctxs := s.ctxs[x := c])
  }

  /** The last completion: the user is called and the context goes back. */
  function FinishState(s: State, x: nat, c: Ctx, r: nat): State
    requires x < |s.ctxs|
  {
    State(s.ctxs[x := c], s.free + [x], Remove(s.used, x), s.calls + [Call(c.req, r, c.status)], s.started)
  }

  lemma BeginPool(s: State, n: nat)
    requires Pool(s) && s.free != [] && s.free[0] < |s.ctxs|
    ensures Pool(BeginState(s, n))
  {
    PopFacts(s.free);
    NoDupAppend(s.used, s.free[0]);
    var t := BeginState(s, n);
    forall x | 0 <= x < |t.ctxs| ensures x in t.free || x in t.used {
      assert x in s.free || x in s.used;
    }
  }

  lemma BeginInv(s: State, n: nat)
    requires Inv(s) && s.free != [] && s.free[0] < |s.ctxs|
    ensures Inv(BeginState(s, n))
  {
    var t, x := BeginState(s, n), s.free[0];
    BeginPool(s, n);
    NoneCounted(t.ctxs[x].phase, t.ctxs[x].status);
    NoDupAppend(s.used, x);
    assert s.free[0] in s.free;
    forall r | 0 <= r < t.started
      ensures (Called(t, r) || Held(t, r)) && !(Called(t, r) && Held(t, r))
    {
      HeldBegin(s, n, r);
    }
  }

  lemma HeldBegin(s: State, n: nat, r: nat)
    requires Inv(s) && s.free != [] && s.free[0] < |s.ctxs| && Pool(BeginState(s, n)) && r <= s.started
    ensures Held(BeginState(s, n), r) <==> Held(s, r) || r == s.started
    ensures Called(BeginState(s, n), r) <==> Called(s, r)
    ensures r == s.started ==> !Called(s, r)
  {
    var t, x := BeginState(s, n), s.free[0];
    NoDupAppend(s.used, x);
    assert x in s.free;
    if Held(s, r) {
      var y :| y in s.used && y < |s.ctxs| && s.ctxs[y].req == r;
      assert y in t.used && t.ctxs[y].req == r;
    }
    if r == s.started {
      assert x in t.used && t.ctxs[x].req == r;
    }
    if Held(t, r) && r != s.started {
      var y :| y in t.used && y < |t.ctxs| && t.ctxs[y].req == r;
      assert y in s.used && s.ctxs[y].req == r;
    }
  }

  /** A change that leaves the request and keeps the counters right. */
  lemma WithCtxInv(s: State, x: nat, c: Ctx)
    requires Inv(s) && x in s.used && CtxOk(c) && c.req == s.ctxs[x].req
    ensures Inv(WithCtx(s, x, c))
  {
    var t := WithCtx(s, x, c);
    forall r | 0 <= r < t.started
      ensures (Called(t, r) || Held(t, r)) && !(Called(t, r) && Held(t, r))
    {
      assert (Called(s, r) || Held(s, r)) && !(Called(s, r) && Held(s, r));
      if Held(s, r) {
        var y :| y in s.used && y < |s.ctxs| && s.ctxs[y].req == r;
        assert y in t.used && t.ctxs[y].req == r;
      }
      if Held(t, r) {
        var y :| y in t.used && y < |t.ctxs| && t.ctxs[y].req == r;
        assert y in s.used && s.ctxs[y].req == r;
      }
      assert Called(t, r) <==> Called(s, r);
    }
  }

  lemma FinishPool(s: State, x: nat, c: Ctx, r: nat)
    requires Pool(s) && x in s.used
    ensures Pool(FinishState(s, x, c, r))
  {
    RemoveFacts(s.used, x);
    NoDupAppend(s.free, x);
    var t := FinishState(s, x, c, r);
    forall y | 0 <= y < |t.ctxs| ensures y in t.free || y in t.used {
      assert y in s.free || y in s.used;
    }
  }

  lemma FinishInv(s: State, x: nat, c: Ctx, r: nat)
    requires Inv(s) && x in s.used && c.req == s.ctxs[x].req && FirstFailure(c.status, r)
    ensures Inv(FinishState(s, x, c, r))
  {
    hide FirstFailure, CtxOk;
    FinishPool(s, x, c, r);
    RemoveFacts(s.used, x);
    var t := FinishState(s, x, c, r);
    assert Held(s, c.req);
    assert !Called(s, c.req);
    assert Contexts(t);
    assert Calls(t.calls, t.started);
    forall q | 0 <= q < t.started
      ensures (Called(t, q) || Held(t, q)) && !(Called(t, q) && Held(t, q))
    {
      HeldFinish(s, x, c, r, q);
    }
  }

  lemma HeldFinish(s: State, x: nat, c: Ctx, r: nat, q: nat)
    requires Inv(s) && x in s.used && c.req == s.ctxs[x].req && q < s.started
    ensures Held(FinishState(s, x, c, r), q) <==> Held(s, q) && q != c.req
    ensures Called(FinishState(s, x, c, r), q) <==> Called(s, q) || q == c.req
  {
    hide CtxOk, FirstFailure;
    var t := FinishState(s, x, c, r);
    RemoveFacts(s.used, x);
    if Held(t, q) {
      var y :| y in t.used && y < |t.ctxs| && t.ctxs[y].req == q;
      assert y in s.used && s.ctxs[y].req == q;
    }
    if Held(s, q) && q != c.req {
      var y :| y in s.used && y < |s.ctxs| && s.ctxs[y].req == q;
      assert y in t.used && t.ctxs[y].req == q;
    }
    if Called(s, q) {
      var k :| 0 <= k < |s.calls| && s.calls[k].req == q;
      assert t.calls[k].req == q;
    }
    assert t.calls[|s.calls|].req == c.req;
  }

  // ----- What the user sees -----

  /** At most one callback per request, at most one context, never both; and a request with neither
      does not exist. */
  lemma OneCallback(s: State, r: nat, k: nat, m: nat)
    requires Inv(s) && k < |s.calls| && m < |s.calls| && s.calls[k].req == r && s.calls[m].req == r
    ensures k == m && r < s.started && !Held(s, r) && FirstFailure(s.calls[k].all, s.calls[k].status)
  {
    assert Called(s, r);
    if k < m { assert false; }
    if m < k { assert false; }
  }

  /** There are commands, and all of them have been counted. */
  ghost predicate AllDone(p: seq<Phase>) { p != [] && forall i :: 0 <= i < |p| ==> p[i] == Counted }

  /** When no command of a request is out any more, its callback has been made. */
  lemma CalledWhenComplete(s: State, r: nat)
    requires Inv(s) && r < s.started
    requires forall x :: x in s.used && s.ctxs[x].req == r ==> AllDone(s.ctxs[x].phase)
    ensures Called(s, r)
  {
    if Held(s, r) {
      var x :| x in s.used && x < |s.ctxs| && s.ctxs[x].req == r;
      AllCounted(s.ctxs[x].phase, s.ctxs[x].status);
    }
  }

  /** The contexts of requests without a command: nobody will give them back. */
  ghost predicate Orphan(s: State, x: nat) {
    x in s.used && x < |s.ctxs| && s.ctxs[x].phase == []
  }

  lemma OrphanNotCalled(s: State, x: nat)
    requires Inv(s) && Orphan(s, x)
    ensures !Called(s, s.ctxs[x].req)
  {
    assert CtxOk(s.ctxs[x]);
    assert Held(s, s.ctxs[x].req);
  }
}
