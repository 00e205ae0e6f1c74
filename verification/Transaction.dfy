/** The transaction framework of OX-App (ftl/ox-app/app-transaction.c): transactions are created,
    get physical sectors, and commit strictly in creation order; a commit that fails half-way is
    rolled back and tried again by the next call. */
module Transaction {
  import opened Sequences
  import opened SectorLedger
  import opened RedoLog

  datatype Kind = LbaNs | Gc
  datatype Tr = Tr(id: nat, kind: Kind, entries: seq<Entry>, nalloc: nat, committed: bool, flush: bool)

  /** A finished transaction. */
  datatype Done = Done(id: nat, kind: Kind, entries: seq<Entry>)

  const MAX_ENTRIES: nat := 4096

  ghost function CountSet(es: seq<Entry>): nat {
    if es == [] then 0 else CountSet(es[..|es| - 1]) + if es[|es| - 1].ppa != 0 then 1 else 0
  }

  lemma {:induction false} AllSet(es: seq<Entry>)
    ensures CountSet(es) <= |es|
    ensures CountSet(es) == |es| ==> forall i :: 0 <= i < |es| ==> es[i].ppa != 0
  {
    if es != [] {
      AllSet(es[..|es| - 1]);
    }
  }

  lemma {:induction false} SetOne(es: seq<Entry>, i: nat, p: nat)
    requires i < |es| && es[i].ppa == 0 && p != 0
    ensures CountSet(es[i := es[i].(ppa := p)]) == CountSet(es) + 1
  {
    var es' := es[i := es[i].(ppa := p)];
    var last := |es| - 1;
    if i == last {
      assert es'[..last] == es[..last];
    } else {
      assert es'[..last] == es[..last][i := es[i].(ppa := p)];
      SetOne(es[..last], i, p);
    }
  }

  lemma {:induction false} NoneSet(es: seq<Entry>)
    requires forall i :: 0 <= i < |es| ==> es[i].ppa == 0
    ensures CountSet(es) == 0
  {
    if es != [] {
      NoneSet(es[..|es| - 1]);
    }
  }

  /** The map that a sequence of finished transactions makes of `gl`. */
  ghost function Fold(gl: seq<nat>, done: seq<Done>): (r: seq<nat>)
    requires forall i :: 0 <= i < |done| && done[i].kind.LbaNs? ==> InMap(gl, done[i].entries)
    ensures |r| == |gl|
  {
    if done == [] then gl
    else
      var n := |done| - 1;
      var before := Fold(gl, done[..n]);
      assert done[n].kind.LbaNs? ==> InMap(gl, done[n].entries);
      if done[n].kind.LbaNs? then Apply(before, done[n].entries) else before
  }

  // ----- What holds between calls -----

  ghost predicate Slots(tr: seq<Tr>, free: seq<nat>, used: seq<nat>) {
    && NoDup(free) && NoDup(used)
    && (forall s :: s in free || s in used ==> s < |tr|)
    && (forall s :: 0 <= s < |tr| ==> (s in free <==> s !in used))
  }

  /** Each user transaction counts its allocated entries; a committed one has them all. */
  ghost predicate Counters(tr: seq<Tr>, used: seq<nat>) {
    forall s :: s in used && s < |tr| && tr[s].kind.LbaNs? ==>
      tr[s].nalloc == CountSet(tr[s].entries) && (tr[s].committed ==> tr[s].nalloc == |tr[s].entries|)
  }

  /** The held sectors are those of the entries of unfinished user transactions. */
  ghost predicate Holds(tr: seq<Tr>, used: seq<nat>, held: map<Key, nat>) {
    && (forall k :: k in held ==> HoldsAt(tr, used, k) && held[k] == tr[k.slot].entries[k.i].ppa)
    && (forall k: Key :: HoldsAt(tr, used, k) ==> k in held)
  }

  ghost predicate HoldsAt(tr: seq<Tr>, used: seq<nat>, k: Key) {
    && k.slot in used && k.slot < |tr| && tr[k.slot].kind.LbaNs?
    && k.i < |tr[k.slot].entries| && tr[k.slot].entries[k.i].ppa != 0
  }

  /** The creation numbers of the finished transactions, then of the unfinished ones as queued. */
  ghost function Ids(tr: seq<Tr>, used: seq<nat>, done: seq<Done>): seq<nat>
    requires forall j :: 0 <= j < |used| ==> used[j] < |tr|
  {
    seq(|done|, i requires 0 <= i < |done| => done[i].id)
    + seq(|used|, j requires 0 <= j < |used| => tr[used[j]].id)
  }

  /** The slots in use and what they hold. */
  datatype Queue = Queue(tr: seq<Tr>, free: seq<nat>, used: seq<nat>, held: map<Key, nat>)

  ghost predicate QueueOk(q: Queue) {
    match q case Queue(tr, free, used, held) =>
      Slots(tr, free, used) && Counters(tr, used) && Holds(tr, used, held)
  }

  /** What became of the transactions created so far. */
  datatype Past = Past(done: seq<Done>, aborted: set<nat>, next: nat)

  /** Transactions finish in creation order, and older than every unfinished one, which are queued
      in creation order; every transaction ever created is finished, queued or aborted, and only
      one of the three. */
  ghost predicate PastOk(tr: seq<Tr>, used: seq<nat>, past: Past) {
    && (forall j :: 0 <= j < |used| ==> used[j] < |tr|)
    && Increasing(Ids(tr, used, past.done))
    && (forall id :: id in Ids(tr, used, past.done) <==> 0 <= id < past.next && id !in past.aborted)
    && (forall id :: id in past.aborted ==> id < past.next)
  }

  /** The map is the fold of the finished transactions. */
  ghost predicate Folded(gl0: seq<nat>, done: seq<Done>, gl: seq<nat>) {
    && (forall i :: 0 <= i < |done| && done[i].kind.LbaNs? ==> InMap(gl0, done[i].entries))
    && gl == Fold(gl0, done)
  }

  lemma FoldAppend(gl0: seq<nat>, done: seq<Done>, gl: seq<nat>, d: Done)
    requires Folded(gl0, done, gl) && (d.kind.LbaNs? ==> InMap(gl, d.entries))
    ensures Folded(gl0, done + [d], if d.kind.LbaNs? then Apply(gl, d.entries) else gl)
  {
    assert (done + [d])[..|done|] == done;
  }

  ghost predicate Injective(table: seq<nat>) {
    forall a, b :: 0 <= a < b < |table| && table[a] != 0 ==> table[a] != table[b]
  }

  ghost function Owners(table: seq<nat>): map<nat, Owner>
    requires Injective(table)
  {
    map a: nat | a < |table| && table[a] != 0 :: table[a] := Mapped(a)
  }

  lemma StartOk(n: nat, table: seq<nat>)
    requires Injective(table)
    ensures QueueOk(Queue(seq(n, _ => Tr(0, LbaNs, [], 0, false, false)), seq(n, i => i), [], map[]))
    ensures Sectors(Ledger(Owners(table), map[], table, {}))
  {
    var free: seq<nat> := seq(n, i => i);
    forall s | 0 <= s < n ensures s in free {
      assert free[s] == s;
    }
  }

  /** A transaction gives its slot back. */
  lemma RecycleKeepsLists(tr: seq<Tr>, free: seq<nat>, used: seq<nat>, held: map<Key, nat>, s: nat, t: Tr)
    requires QueueOk(Queue(tr, free, used, held)) && s in used && s < |tr|
    ensures QueueOk(Queue(tr[s := t], free + [s], Remove(used, s), Without(held, s)))
  {
    hide Slots, Counters, Holds, Without;
    RecycleSlots(tr, free, used, s, t);
    UsedOnce(tr, free, used);
    RecycleCounters(tr, used, s, t);
    RecycleHolds(tr, used, held, s, t);
  }

  lemma UsedOnce(tr: seq<Tr>, free: seq<nat>, used: seq<nat>)
    requires Slots(tr, free, used)
    ensures NoDup(used)
  {
  }

  lemma RecycleCounters(tr: seq<Tr>, used: seq<nat>, s: nat, t: Tr)
    requires Counters(tr, used) && NoDup(used) && s < |tr|
    ensures Counters(tr[s := t], Remove(used, s))
  {
    RemoveFacts(used, s);
    hide NoDup;
  }

  lemma RecycleHolds(tr: seq<Tr>, used: seq<nat>, held: map<Key, nat>, s: nat, t: Tr)
    requires Holds(tr, used, held) && NoDup(used) && s < |tr|
    ensures Holds(tr[s := t], Remove(used, s), Without(held, s))
  {
    RemoveFacts(used, s);
    hide NoDup;
    var tr', used', held' := tr[s := t], Remove(used, s), Without(held, s);
    forall k: Key ensures HoldsAt(tr', used', k) <==> HoldsAt(tr, used, k) && k.slot != s {
    }
  }

  lemma RecycleSlots(tr: seq<Tr>, free: seq<nat>, used: seq<nat>, s: nat, t: Tr)
    requires Slots(tr, free, used) && s in used && s < |tr|
    ensures Slots(tr[s := t], free + [s], Remove(used, s))
  {
    RemoveFacts(used, s);
    assert s !in free;
    NoDupAppend(free, s);
    hide NoDup;
  }

  /** The oldest transaction finishes. */
  lemma FinishKeepsOrder(tr: seq<Tr>, used: seq<nat>, past: Past, t: Tr, entries: seq<Entry>)
    requires PastOk(tr, used, past) && used != [] && used[0] < |tr| && NoDup(used)
    ensures var d := Done(tr[used[0]].id, tr[used[0]].kind, entries);
            PastOk(tr[used[0] := t], used[1..], past.(done := past.done + [d]))
  {
    var s := used[0];
    var d := Done(tr[s].id, tr[s].kind, entries);
    var tr', used', done' := tr[s := t], used[1..], past.done + [d];
    assert forall j :: 0 <= j < |used'| ==> used'[j] == used[j + 1] && used'[j] != s;
    assert Ids(tr', used', done') == Ids(tr, used, past.done);
  }

  lemma NewKeepsLists(tr: seq<Tr>, free: seq<nat>, used: seq<nat>, held: map<Key, nat>, t: Tr)
    requires QueueOk(Queue(tr, free, used, held)) && free != []
    requires free[0] < |tr| && CountSet(t.entries) == t.nalloc && !t.committed
    requires forall i :: 0 <= i < |t.entries| ==> t.entries[i].ppa == 0
    ensures var s := free[0];
            s !in used && QueueOk(Queue(tr[s := t], free[1..], used + [s], held))
  {
    hide Counters, Holds;
    assert free[0] in free;
    NewSlots(tr, free, used, t);
    NewHolds(tr, used, held, free[0], t);
    hide Slots;
  }

  lemma NewSlots(tr: seq<Tr>, free: seq<nat>, used: seq<nat>, t: Tr)
    requires Slots(tr, free, used) && free != [] && free[0] < |tr| && free[0] !in used
    ensures Slots(tr[free[0] := t], free[1..], used + [free[0]])
  {
    PopFacts(free);
    NoDupAppend(used, free[0]);
    hide NoDup;
  }

  lemma NewHolds(tr: seq<Tr>, used: seq<nat>, held: map<Key, nat>, s: nat, t: Tr)
    requires Counters(tr, used) && Holds(tr, used, held) && s < |tr| && s !in used
    requires CountSet(t.entries) == t.nalloc && !t.committed && forall i :: 0 <= i < |t.entries| ==> t.entries[i].ppa == 0
    ensures Counters(tr[s := t], used + [s]) && Holds(tr[s := t], used + [s], held)
  {
    var tr', used' := tr[s := t], used + [s];
    assert forall x :: x in used' <==> x == s || x in used;
    forall k: Key ensures HoldsAt(tr', used', k) <==> HoldsAt(tr, used, k) {
      assert k.slot != s ==> (k.slot in used' <==> k.slot in used);
    }
  }

  lemma NewKeepsOrder(tr: seq<Tr>, used: seq<nat>, past: Past, s: nat, t: Tr)
    requires PastOk(tr, used, past) && s < |tr| && s !in used && t.id == past.next
    ensures PastOk(tr[s := t], used + [s], past.(next := past.next + 1))
  {
    var ids := Ids(tr, used, past.done);
    assert Ids(tr[s := t], used + [s], past.done) == ids + [past.next];
    assert forall i :: 0 <= i < |ids| ==> ids[i] in ids;
  }

  lemma {:induction false} RemoveAt(used: seq<nat>, i: nat)
    requires NoDup(used) && i < |used|
    ensures var r := Remove(used, used[i]);
            |r| == |used| - 1 && forall j :: 0 <= j < |r| ==> r[j] == used[if j < i then j else j + 1]
  {
    if i != 0 {
      RemoveAt(used[1..], i - 1);
      assert used[1..][i - 1] == used[i] != used[0];
    }
  }

  /** `cut` is `ids` without the element at `at`. */
  lemma CutOut(ids: seq<nat>, at: nat, cut: seq<nat>)
    requires Increasing(ids) && at < |ids| && |cut| == |ids| - 1
    requires forall j :: 0 <= j < |cut| ==> cut[j] == ids[if j < at then j else j + 1]
    ensures Increasing(cut)
    ensures forall id :: id in cut <==> id in ids && id != ids[at]
  {
    forall id | id in ids && id != ids[at] ensures id in cut {
      var j :| 0 <= j < |ids| && ids[j] == id;
      assert cut[if j < at then j else j - 1] == id;
    }
  }

  /** A transaction is aborted, wherever it is queued. */
  lemma AbortKeepsOrder(tr: seq<Tr>, used: seq<nat>, past: Past, i: nat, t: Tr, used': seq<nat>)
    requires PastOk(tr, used, past) && i < |used| && NoDup(used) && |used'| == |used| - 1
    requires forall j :: 0 <= j < |used'| ==> used'[j] == used[if j < i then j else j + 1]
    ensures PastOk(tr[used[i] := t], used', past.(aborted := past.aborted + {tr[used[i]].id}))
  {
    var ids, at := Ids(tr, used, past.done), |past.done| + i;
    assert forall j :: 0 <= j < |used'| ==> used'[j] != used[i];
    var cut := Ids(tr[used[i] := t], used', past.done);
    CutOut(ids, at, cut);
    assert ids[at] == tr[used[i]].id && ids[at] in ids;
  }

  ghost function Blank(t: Tr): Tr {
    t.(nalloc := 0, committed := false, entries := [])
  }

  /** A committed user transaction holds all its sectors, and landing them leaves it none. */
  lemma CommitEffect(q: Queue, book: Ledger, s: nat)
    requires QueueOk(q) && Sectors(book) && book.held == q.held
    requires s in q.used && s < |q.tr| && q.tr[s].committed
    ensures var es := q.tr[s].entries;
            if q.tr[s].kind.LbaNs? then
              InMap(book.gl, es) ==>
                && Ready(book, s, es)
                && var l := LandFirst(book, s, es, |es|);
                   && Sectors(l) && l.gl == Apply(book.gl, es) && l.held == Without(book.held, s)
                   && l.invalid == book.invalid + Overwritten(book.gl, es, |es|)
            else Without(book.held, s) == book.held
  {
    var es := q.tr[s].entries;
    if q.tr[s].kind.LbaNs? {
      HoldsAll(q, s);
      hide QueueOk, Sectors, Without, Overwritten, Apply;
      if InMap(book.gl, es) {
        assert es[..|es|] == es;
        LandFirstKeeps(book, s, es, |es|);
        AllLanded(book.held, s, |es|);
      }
    } else {
      HoldsNone(q, s);
      hide QueueOk, Sectors, Without;
    }
  }

  lemma HoldsNone(q: Queue, s: nat)
    requires QueueOk(q) && s in q.used && s < |q.tr| && !q.tr[s].kind.LbaNs?
    ensures Without(q.held, s) == q.held
  {
    assert forall k :: k in q.held && k.slot == s ==> HoldsAt(q.tr, q.used, k);
  }

  lemma HoldsAll(q: Queue, s: nat)
    requires QueueOk(q) && s in q.used && s < |q.tr| && q.tr[s].committed && q.tr[s].kind.LbaNs?
    ensures forall i :: 0 <= i < |q.tr[s].entries| ==>
              Key(s, i) in q.held && q.held[Key(s, i)] == q.tr[s].entries[i].ppa
    ensures forall k :: k in q.held && k.slot == s ==> k.i < |q.tr[s].entries|
  {
    var es := q.tr[s].entries;
    AllSet(es);
    forall i | 0 <= i < |es| ensures Key(s, i) in q.held && q.held[Key(s, i)] == es[i].ppa {
      assert HoldsAt(q.tr, q.used, Key(s, i));
    }
    assert forall k :: k in q.held && k.slot == s ==> HoldsAt(q.tr, q.used, k);
  }

  ghost predicate SameSlot(tr: seq<Tr>, tr': seq<Tr>, s: nat) {
    s < |tr| == |tr'| && tr'[s] == tr[s]
  }

  /** The first `n` queued transactions, as finished ones. */
  ghost function Dones(tr: seq<Tr>, used: seq<nat>, n: nat): seq<Done>
    requires n <= |used| && forall i :: 0 <= i < n ==> used[i] < |tr|
  {
    seq(n, i requires 0 <= i < n => DoneOf(tr[used[i]]))
  }

  lemma DonesNone(tr: seq<Tr>, used: seq<nat>)
    ensures Dones(tr, used, 0) == []
  {
  }

  lemma DonesNext(tr: seq<Tr>, used: seq<nat>, n: nat)
    requires n < |used| && forall i :: 0 <= i <= n ==> used[i] < |tr|
    ensures Dones(tr, used, n + 1) == Dones(tr, used, n) + [DoneOf(tr[used[n]])]
  {
  }

  ghost predicate AllInMap(gl: seq<nat>, done: seq<Done>) {
    forall i :: 0 <= i < |done| && done[i].kind.LbaNs? ==> InMap(gl, done[i].entries)
  }

  /** The sectors that a sequence of transactions overwrites, one after the other. */
  ghost function Replacing(gl: seq<nat>, done: seq<Done>): set<nat>
    requires AllInMap(gl, done)
  {
    if done == [] then {}
    else
      var n := |done| - 1;
      assert done[n].kind.LbaNs? ==> InMap(gl, done[n].entries);
      Replacing(gl, done[..n]) +
      if done[n].kind.LbaNs? then Overwritten(Fold(gl, done[..n]), done[n].entries, |done[n].entries|) else {}
  }

  /** The commit records of finished transactions. */
  ghost function CommitRecs(done: seq<Done>): seq<LogRec> {
    seq(|done|, i requires 0 <= i < |done| => CommitRec(done[i].id))
  }

  /** What commits change: the finished transactions, the map, the invalidated sectors and the log. */
  datatype Board = Board(done: seq<Done>, gl: seq<nat>, invalid: set<nat>, log: seq<LogRec>)

  /** The transactions `ds` have taken effect, one after the other. */
  ghost predicate Effect(ds: seq<Done>, b: Board, b': Board) {
    && AllInMap(b.gl, ds) && b'.done == b.done + ds && b'.gl == Fold(b.gl, ds)
    && b'.invalid == b.invalid + Replacing(b.gl, ds)
  }

  lemma EffectNone(b: Board)
    ensures Effect([], b, b) && b.log == b.log + CommitRecs([])
  {
    assert b.done + [] == b.done;
  }

  lemma EffectLog(ds: seq<Done>, b: Board, b1: Board, b2: Board)
    requires Effect(ds, b, b1) && b2 == b1.(log := b2.log)
    ensures Effect(ds, b, b2)
  {
  }

  lemma EffectNext(ds: seq<Done>, d: Done, b: Board, b1: Board, b2: Board)
    requires Effect(ds, b, b1) && b2.done == b1.done + [d]
    requires if d.kind.LbaNs? then
               && InMap(b1.gl, d.entries) && b2.gl == Apply(b1.gl, d.entries)
               && b2.invalid == b1.invalid + Overwritten(b1.gl, d.entries, |d.entries|)
             else b2.gl == b1.gl && b2.invalid == b1.invalid
    requires b1.log == b.log + CommitRecs(ds) && b2.log == b1.log + [CommitRec(d.id)]
    ensures Effect(ds + [d], b, b2) && b2.log == b.log + CommitRecs(ds + [d])
  {
    var all := ds + [d];
    assert all[..|ds|] == ds;
    assert CommitRecs(all) == CommitRecs(ds) + [CommitRec(d.id)];
    forall i | 0 <= i < |all| && all[i].kind.LbaNs? ensures InMap(b.gl, all[i].entries) {
      assert i < |ds| ==> ds[i] == all[i];
    }
  }

  /** The `n` first transactions of the queue were committed and took effect, in that order, and
      exactly the sectors they overwrote were invalidated. Without a failure the log gained exactly
      their commit records; with one it may also hold a record of the next transaction, appended
      before its flush failed, although that one has not taken effect and may still be aborted. */
  ghost predicate Drained(tr: seq<Tr>, used: seq<nat>, n: nat, b: Board, b': Board, ok: bool) {
    && n <= |used| && (forall i :: 0 <= i < n ==> used[i] < |tr| && tr[used[i]].committed)
    && Effect(Dones(tr, used, n), b, b')
    && var log := b.log + CommitRecs(Dones(tr, used, n));
       b'.log == log ||
       (!ok && n < |used| && used[n] < |tr| && b'.log == log + [CommitRec(tr[used[n]].id)])
  }

  lemma DrainedSame(tr: seq<Tr>, tr': seq<Tr>, used: seq<nat>, n: nat, b: Board, b': Board, ok: bool)
    requires Drained(tr', used, n, b, b', ok) && |tr| == |tr'| && forall x :: x in used && x < |tr| ==> tr'[x] == tr[x]
    ensures Drained(tr, used, n, b, b', ok)
  {
    hide Effect, CommitRecs;
    assert forall i :: 0 <= i < |used| && used[i] < |tr| ==> used[i] in used && tr'[used[i]] == tr[used[i]];
    assert Dones(tr, used, n) == Dones(tr', used, n);
  }

  /** With nothing finished only the log can have changed. */
  lemma DrainedNone(tr: seq<Tr>, used: seq<nat>, b: Board, b': Board, ok: bool)
    ensures Drained(tr, used, 0, b, b', ok) ==> b' == b.(log := b'.log)
    ensures Drained(tr, [], 0, b, b', ok) ==> b' == b
  {
    assert b.done + [] == b.done && b.log + [] == b.log;
  }

  /** Marking a fully allocated transaction as committed. */
  lemma FlagKeeps(q: Queue, past: Past, s: nat, t: Tr)
    requires QueueOk(q) && PastOk(q.tr, q.used, past) && s in q.used && s < |q.tr|
    requires q.tr[s].nalloc == |q.tr[s].entries| && t == q.tr[s].(committed := true, flush := t.flush)
    ensures QueueOk(q.(tr := q.tr[s := t])) && PastOk(q.tr[s := t], q.used, past)
  {
    var tr' := q.tr[s := t];
    assert Slots(tr', q.free, q.used) && Counters(tr', q.used);
    assert forall k: Key :: HoldsAt(tr', q.used, k) <==> HoldsAt(q.tr, q.used, k);
    assert Holds(tr', q.used, q.held);
    assert Ids(tr', q.used, past.done) == Ids(q.tr, q.used, past.done);
  }

  lemma GcKeeps(q: Queue, past: Past, s: nat, n: nat)
    requires QueueOk(q) && PastOk(q.tr, q.used, past) && s < |q.tr| && q.tr[s].kind.Gc?
    ensures var tr' := q.tr[s := q.tr[s].(nalloc := n)];
            QueueOk(Queue(tr', q.free, q.used, q.held)) && PastOk(tr', q.used, past)
  {
    var tr' := q.tr[s := q.tr[s].(nalloc := n)];
    assert forall k: Key :: HoldsAt(tr', q.used, k) <==> HoldsAt(q.tr, q.used, k);
    assert Ids(tr', q.used, past.done) == Ids(q.tr, q.used, past.done);
  }

  ghost function SetSectors(t: Tr): set<nat> {
    set i | 0 <= i < |t.entries| && t.kind.LbaNs? && t.entries[i].ppa != 0 :: t.entries[i].ppa
  }

  lemma HeldSectors(q: Queue, s: nat)
    requires QueueOk(q) && s in q.used && s < |q.tr|
    ensures HeldBy(q.held, s) == SetSectors(q.tr[s])
  {
    assert forall k :: k in q.held && k.slot == s ==> HoldsAt(q.tr, q.used, k);
    forall p | p in SetSectors(q.tr[s]) ensures p in HeldBy(q.held, s) {
      var i :| 0 <= i < |q.tr[s].entries| && q.tr[s].entries[i].ppa == p && p != 0;
      assert HoldsAt(q.tr, q.used, Key(s, i));
    }
  }

  /** An abort invalidates exactly the sectors the transaction holds and takes it off the queue. */
  lemma AbortKeeps(q: Queue, book: Ledger, past: Past, s: nat)
    requires QueueOk(q) && Sectors(book) && book.held == q.held && PastOk(q.tr, q.used, past)
    requires s in q.used && s < |q.tr|
    ensures Sectors(Ledger(DropAll(book, s).owner, Without(q.held, s), book.gl, book.invalid + SetSectors(q.tr[s])))
    ensures PastOk(q.tr[s := Blank(q.tr[s])], Remove(q.used, s), past.(aborted := past.aborted + {q.tr[s].id}))
    ensures forall x :: x in Remove(q.used, s) ==> x != s && x < |q.tr|
  {
    HeldSectors(q, s);
    DropAllKeeps(book, s);
    UsedInRange(q);
    var i :| 0 <= i < |q.used| && q.used[i] == s;
    RemoveFacts(q.used, s);
    RemoveAt(q.used, i);
    AbortKeepsOrder(q.tr, q.used, past, i, Blank(q.tr[s]), Remove(q.used, s));
  }

  // ----- Allocation -----

  /** The entries to fill belong to unfinished user transactions, have no sector yet and are
      named once. */
  ghost predicate Unassigned(tr: seq<Tr>, used: seq<nat>, ents: seq<Option<Key>>) {
    && (forall n :: 0 <= n < |ents| && ents[n].Some? ==>
          var k := ents[n].value;
          && k.slot in used && k.slot < |tr| && tr[k.slot].kind.LbaNs?
          && k.i < |tr[k.slot].entries| && tr[k.slot].entries[k.i].ppa == 0)
    && (forall m, n :: 0 <= m < n < |ents| && ents[m].Some? ==> ents[m] != ents[n])
  }

  /** What the allocator promises: distinct sectors that nobody is responsible for. */
  ghost predicate Fresh(owner: map<nat, Owner>, ppas: seq<nat>) {
    NoDup(ppas) && forall n :: 0 <= n < |ppas| ==> ppas[n] != 0 && ppas[n] !in owner
  }

  ghost predicate Names(tr: seq<Tr>, k: Key) {
    k.slot < |tr| && k.i < |tr[k.slot].entries|
  }

  /** An entry gets its sector. */
  ghost function Fill(tr: seq<Tr>, k: Key, p: nat): (r: seq<Tr>)
    requires Names(tr, k)
    ensures forall j: Key :: Names(r, j) <==> Names(tr, j)
    ensures |r| == |tr| && forall s :: 0 <= s < |tr| ==> r[s].kind == tr[s].kind && r[s].id == tr[s].id
  {
    var t := tr[k.slot];
    tr[k.slot := t.(entries := t.entries[k.i := t.entries[k.i].(ppa := p)], nalloc := t.nalloc + 1)]
  }

  /** An entry loses its sector. */
  ghost function Clear(tr: seq<Tr>, k: Key): seq<Tr>
    requires Names(tr, k) && 0 < tr[k.slot].nalloc
  {
    var t := tr[k.slot];
    tr[k.slot := t.(entries := t.entries[k.i := t.entries[k.i].(ppa := 0)], nalloc := t.nalloc - 1)]
  }

  /** The entries from `lo` to `hi` that are not padding are filled, in order. */
  ghost function FillRange(tr: seq<Tr>, ents: seq<Option<Key>>, ppas: seq<nat>, lo: nat, hi: nat): (r: seq<Tr>)
    requires lo <= hi <= |ents| == |ppas|
    requires forall n :: 0 <= n < |ents| && ents[n].Some? ==> Names(tr, ents[n].value)
    ensures forall k: Key :: Names(r, k) <==> Names(tr, k)
    ensures |r| == |tr| && forall s :: 0 <= s < |tr| ==> r[s].kind == tr[s].kind && r[s].id == tr[s].id
    decreases hi
  {
    if lo == hi then tr
    else
      var r := FillRange(tr, ents, ppas, lo, hi - 1);
      if ents[hi - 1].None? then r else Fill(r, ents[hi - 1].value, ppas[hi - 1])
  }

  /** The entries named by the list, with the sectors they are to get. */
  ghost function Wanted(ents: seq<Option<Key>>, ppas: seq<nat>, n: nat): map<Key, nat>
    requires n <= |ents| == |ppas|
  {
    if n == 0 then map[]
    else if ents[n - 1].None? then Wanted(ents, ppas, n - 1)
    else Wanted(ents, ppas, n - 1)[ents[n - 1].value := ppas[n - 1]]
  }

  lemma WantedNext(held: map<Key, nat>, ents: seq<Option<Key>>, ppas: seq<nat>, n: nat)
    requires n < |ents| == |ppas|
    ensures held + Wanted(ents, ppas, n + 1) ==
            if ents[n].None? then held + Wanted(ents, ppas, n) else (held + Wanted(ents, ppas, n))[ents[n].value := ppas[n]]
  {
  }

  lemma WantedNone(held: map<Key, nat>, ents: seq<Option<Key>>, ppas: seq<nat>)
    requires |ents| == |ppas|
    ensures held + Wanted(ents, ppas, 0) == held
  {
  }

  /** The log records of the list: one per entry that is not padding. */
  ghost function Records(tr: seq<Tr>, ents: seq<Option<Key>>, ppas: seq<nat>, n: nat): seq<LogRec>
    requires n <= |ents| == |ppas|
    requires forall m :: 0 <= m < |ents| && ents[m].Some? ==> Names(tr, ents[m].value)
  {
    if n == 0 then []
    else if ents[n - 1].None? then Records(tr, ents, ppas, n - 1)
    else
      var k := ents[n - 1].value;
      Records(tr, ents, ppas, n - 1) + [Write(tr[k.slot].id, tr[k.slot].entries[k.i].lba, ppas[n - 1])]
  }

  lemma {:induction false} SkipPadding(tr: seq<Tr>, ents: seq<Option<Key>>, ppas: seq<nat>, lo: nat, hi: nat)
    requires lo < hi <= |ents| == |ppas| && ents[lo].None?
    requires forall n :: 0 <= n < |ents| && ents[n].Some? ==> Names(tr, ents[n].value)
    ensures FillRange(tr, ents, ppas, lo, hi) == FillRange(tr, ents, ppas, lo + 1, hi)
    decreases hi
  {
    if lo + 1 < hi {
      SkipPadding(tr, ents, ppas, lo, hi - 1);
    }
  }

  /** Entries outside the range keep their sector. */
  lemma {:induction false} FillRangeElse(tr: seq<Tr>, ents: seq<Option<Key>>, ppas: seq<nat>, lo: nat, hi: nat, k: Key)
    requires lo <= hi <= |ents| == |ppas| && Names(tr, k)
    requires forall n :: 0 <= n < |ents| && ents[n].Some? ==> Names(tr, ents[n].value)
    requires forall n :: lo <= n < hi ==> ents[n] != Some(k)
    ensures Names(FillRange(tr, ents, ppas, lo, hi), k)
    ensures FillRange(tr, ents, ppas, lo, hi)[k.slot].entries[k.i] == tr[k.slot].entries[k.i]
    decreases hi
  {
    if lo < hi {
      FillRangeElse(tr, ents, ppas, lo, hi - 1, k);
    }
  }

  lemma FillsCommute(tr: seq<Tr>, j: Key, p: nat, k: Key, q: nat)
    requires Names(tr, j) && Names(tr, k) && j != k
    ensures Fill(Fill(tr, j, p), k, q) == Fill(Fill(tr, k, q), j, p)
  {
    var a, b := Fill(Fill(tr, j, p), k, q), Fill(Fill(tr, k, q), j, p);
    if j.slot == k.slot {
      assert a[k.slot].entries == b[k.slot].entries;
    }
  }

  /** The first entry of a range may as well be filled last. */
  lemma {:induction false} FillFirstLast(tr: seq<Tr>, ents: seq<Option<Key>>, ppas: seq<nat>, lo: nat, hi: nat)
    requires lo < hi <= |ents| == |ppas| && ents[lo].Some?
    requires forall n :: 0 <= n < |ents| && ents[n].Some? ==> Names(tr, ents[n].value)
    requires forall m, n :: 0 <= m < n < |ents| && ents[m].Some? ==> ents[m] != ents[n]
    ensures FillRange(tr, ents, ppas, lo, hi) == Fill(FillRange(tr, ents, ppas, lo + 1, hi), ents[lo].value, ppas[lo])
    decreases hi
  {
    hide Fill, Names;
    if lo + 1 < hi {
      FillFirstLast(tr, ents, ppas, lo, hi - 1);
      if ents[hi - 1].Some? {
        FillsCommute(FillRange(tr, ents, ppas, lo + 1, hi - 1), ents[lo].value, ppas[lo], ents[hi - 1].value, ppas[hi - 1]);
      }
    }
  }

  /** Clearing the first entry of a filled range undoes its filling. */
  lemma ClearFirst(tr: seq<Tr>, ents: seq<Option<Key>>, ppas: seq<nat>, lo: nat)
    requires lo < |ents| == |ppas| && ents[lo].Some?
    requires forall n :: 0 <= n < |ents| && ents[n].Some? ==>
               Names(tr, ents[n].value) && tr[ents[n].value.slot].entries[ents[n].value.i].ppa == 0
    requires forall m, n :: 0 <= m < n < |ents| && ents[m].Some? ==> ents[m] != ents[n]
    ensures var all, k := FillRange(tr, ents, ppas, lo, |ents|), ents[lo].value;
            0 < all[k.slot].nalloc && Clear(all, k) == FillRange(tr, ents, ppas, lo + 1, |ents|)
  {
    var k := ents[lo].value;
    FillFirstLast(tr, ents, ppas, lo, |ents|);
    var rest := FillRange(tr, ents, ppas, lo + 1, |ents|);
    forall n | lo + 1 <= n < |ents| ensures ents[n] != Some(k) {
      assert ents[lo] != ents[n];
    }
    FillRangeElse(tr, ents, ppas, lo + 1, |ents|, k);
    var t := rest[k.slot];
    assert t.entries[k.i].ppa == 0;
    assert t.entries[k.i := t.entries[k.i].(ppa := ppas[lo])][k.i := t.entries[k.i].(ppa := 0)] == t.entries;
    assert Clear(Fill(rest, k, ppas[lo]), k)[k.slot] == t;
  }

  lemma AssignKeeps(q: Queue, past: Past, k: Key, p: nat)
    requires QueueOk(q) && PastOk(q.tr, q.used, past) && p != 0
    requires k.slot in q.used && Names(q.tr, k) && q.tr[k.slot].kind.LbaNs?
    requires q.tr[k.slot].entries[k.i].ppa == 0
    ensures var tr' := Fill(q.tr, k, p);
            QueueOk(Queue(tr', q.free, q.used, q.held[k := p])) && PastOk(tr', q.used, past) && k !in q.held
  {
    var es := q.tr[k.slot].entries;
    var tr' := Fill(q.tr, k, p);
    SetOne(es, k.i, p);
    AllSet(es);
    AllSet(tr'[k.slot].entries);
    assert !q.tr[k.slot].committed;
    assert Slots(tr', q.free, q.used) && Counters(tr', q.used);
    assert !HoldsAt(q.tr, q.used, k);
    forall j: Key ensures HoldsAt(tr', q.used, j) <==> HoldsAt(q.tr, q.used, j) || j == k {
    }
    assert Holds(tr', q.used, q.held[k := p]);
    assert Ids(tr', q.used, past.done) == Ids(q.tr, q.used, past.done);
  }

  lemma FreeInRange(q: Queue)
    requires QueueOk(q) && q.free != []
    ensures q.free[0] < |q.tr|
  {
    assert q.free[0] in q.free;
  }

  lemma UsedInRange(q: Queue)
    requires QueueOk(q)
    ensures NoDup(q.used) && forall i :: 0 <= i < |q.used| ==> q.used[i] < |q.tr|
  {
    assert forall i :: 0 <= i < |q.used| ==> q.used[i] in q.used;
  }

  ghost function DoneOf(t: Tr): Done {
    Done(t.id, t.kind, t.entries)
  }

  /** The oldest transaction has taken effect. */
  ghost predicate Committed(q: Queue, book: Ledger, q': Queue, book': Ledger)
    requires q.used != [] && q.used[0] < |q.tr|
  {
    var s := q.used[0];
    var es := q.tr[s].entries;
    && q'.tr == q.tr[s := Blank(q.tr[s])] && q'.free == q.free + [s] && q'.used == q.used[1..]
    && if q.tr[s].kind.LbaNs? then
         && InMap(book.gl, es) && book'.gl == Apply(book.gl, es)
         && book'.invalid == book.invalid + Overwritten(book.gl, es, |es|)
       else book'.gl == book.gl && book'.invalid == book.invalid
  }

  /** Once the oldest transaction is on the map, its sectors change hands and it is finished. */
  lemma HeadDone(q: Queue, book: Ledger, gl0: seq<nat>, past: Past)
    requires QueueOk(q) && Sectors(book) && book.held == q.held
    requires q.used != [] && q.used[0] < |q.tr| && q.tr[q.used[0]].committed
    requires PastOk(q.tr, q.used, past) && Folded(gl0, past.done, book.gl)
    requires q.tr[q.used[0]].kind.LbaNs? ==> InMap(book.gl, q.tr[q.used[0]].entries)
    ensures var s := q.used[0];
            var t, es := q.tr[s], q.tr[s].entries;
            && Remove(q.used, s) == q.used[1..]
            && PastOk(q.tr[s := Blank(t)], q.used[1..], past.(done := past.done + [DoneOf(t)]))
            && if t.kind.LbaNs? then
                 && Ready(book, s, es)
                 && var l := LandFirst(book, s, es, |es|);
                    && Sectors(Ledger(l.owner, Without(book.held, s), Apply(book.gl, es),
                                      book.invalid + Overwritten(book.gl, es, |es|)))
                    && Folded(gl0, past.done + [DoneOf(t)], Apply(book.gl, es))
               else
                 && Without(book.held, s) == book.held
                 && Folded(gl0, past.done + [DoneOf(t)], book.gl)
  {
    var t := q.tr[q.used[0]];
    CommitEffect(q, book, q.used[0]);
    FoldAppend(gl0, past.done, book.gl, DoneOf(t));
    FinishKeepsOrder(q.tr, q.used, past, Blank(t), t.entries);
    if t.kind.LbaNs? {
      var l := LandFirst(book, q.used[0], t.entries, |t.entries|);
      assert l == Ledger(l.owner, Without(book.held, q.used[0]), Apply(book.gl, t.entries),
                         book.invalid + Overwritten(book.gl, t.entries, |t.entries|));
    }
  }

  lemma AllSame(tr: seq<Tr>, used: seq<nat>)
    requires forall i :: 0 <= i < |used| ==> used[i] < |tr|
    ensures forall i :: 0 <= i < |used| ==> SameSlot(tr, tr, used[i])
  {
  }

  lemma SlotSame(tr: seq<Tr>, tr': seq<Tr>, s: nat)
    requires SameSlot(tr, tr', s)
    ensures s < |tr| == |tr'| && tr'[s] == tr[s]
  {
  }

  /** The head leaves the queue and no other transaction changes. */
  lemma CommittedStep(tr0: seq<Tr>, used0: seq<nat>, n: nat, q: Queue, book: Ledger, q': Queue, book': Ledger)
    requires n < |used0| && q.used == used0[n..] && NoDup(used0) && q.used[0] < |q.tr|
    requires Committed(q, book, q', book')
    requires forall i :: n <= i < |used0| ==> SameSlot(tr0, q.tr, used0[i])
    ensures q'.used == used0[n + 1..] && |q'.tr| == |q.tr|
    ensures forall i :: n + 1 <= i < |used0| ==> SameSlot(tr0, q'.tr, used0[i])
  {
    forall i | n + 1 <= i < |used0| ensures SameSlot(tr0, q'.tr, used0[i]) {
      assert SameSlot(tr0, q.tr, used0[i]) && used0[i] != used0[n];
    }
  }

  /** The next transaction has taken effect too. */
  lemma DrainNext(tr0: seq<Tr>, used0: seq<nat>, n: nat, b0: Board, b: Board, b': Board,
                  q: Queue, book: Ledger, q': Queue, book': Ledger)
    requires n < |used0| && q.used == used0[n..] && forall i :: 0 <= i <= n ==> used0[i] < |tr0|
    requires q.used[0] < |q.tr| && q.tr[q.used[0]] == tr0[used0[n]] && Committed(q, book, q', book')
    requires b.gl == book.gl && b.invalid == book.invalid && b'.gl == book'.gl && b'.invalid == book'.invalid
    requires Effect(Dones(tr0, used0, n), b0, b) && b.log == b0.log + CommitRecs(Dones(tr0, used0, n))
    requires b'.done == b.done + [DoneOf(q.tr[q.used[0]])] && b'.log == b.log + [CommitRec(q.tr[q.used[0]].id)]
    ensures Effect(Dones(tr0, used0, n + 1), b0, b') && b'.log == b0.log + CommitRecs(Dones(tr0, used0, n + 1))
  {
    hide Effect, CommitRecs, Overwritten, Apply, InMap;
    DonesNext(tr0, used0, n);
    EffectNext(Dones(tr0, used0, n), DoneOf(tr0[used0[n]]), b0, b, b');
  }

  /** The first `n` transactions of the queue `used0` have taken effect, the others are as they were. */
  ghost predicate Draining(tr0: seq<Tr>, used0: seq<nat>, n: nat, b0: Board, tr: seq<Tr>, used: seq<nat>, b: Board) {
    && n <= |used0| && used == used0[n..] && NoDup(used0) && |tr| == |tr0|
    && (forall i :: 0 <= i < |used0| ==> used0[i] < |tr0|)
    && (forall i :: 0 <= i < n ==> tr0[used0[i]].committed)
    && (forall i :: n <= i < |used0| ==> SameSlot(tr0, tr, used0[i]))
    && Effect(Dones(tr0, used0, n), b0, b) && b.log == b0.log + CommitRecs(Dones(tr0, used0, n))
  }

  lemma DrainStart(tr: seq<Tr>, used: seq<nat>, b: Board)
    requires NoDup(used) && forall i :: 0 <= i < |used| ==> used[i] < |tr|
    ensures Draining(tr, used, 0, b, tr, used, b)
  {
    hide Effect, CommitRecs, Dones;
    EffectNone(b);
    DonesNone(tr, used);
    AllSame(tr, used);
  }

  /** The head is the one it was. */
  lemma DrainHead(tr0: seq<Tr>, used0: seq<nat>, n: nat, b0: Board, tr: seq<Tr>, used: seq<nat>, b: Board)
    requires Draining(tr0, used0, n, b0, tr, used, b)
    ensures used == used0[n..] && forall i :: 0 <= i < |used| ==> used[i] < |tr|
    ensures used != [] ==> n < |used0| && tr[used[0]] == tr0[used0[n]]
  {
    hide Effect, CommitRecs, Dones;
    if used != [] {
      SlotSame(tr0, tr, used0[n]);
    }
  }

  lemma DrainMore(tr0: seq<Tr>, used0: seq<nat>, n: nat, b0: Board, b: Board, b': Board,
                  q: Queue, book: Ledger, q': Queue, book': Ledger)
    requires Draining(tr0, used0, n, b0, q.tr, q.used, b) && q.used != [] && q.used[0] < |q.tr|
    requires q.tr[q.used[0]].committed && Committed(q, book, q', book')
    requires b.gl == book.gl && b.invalid == book.invalid && b'.gl == book'.gl && b'.invalid == book'.invalid
    requires b'.done == b.done + [DoneOf(q.tr[q.used[0]])] && b'.log == b.log + [CommitRec(q.tr[q.used[0]].id)]
    ensures Draining(tr0, used0, n + 1, b0, q'.tr, q'.used, b')
  {
    DrainHead(tr0, used0, n, b0, q.tr, q.used, b);
    hide Effect, CommitRecs, Dones, DoneOf, SameSlot, NoDup;
    CommittedStep(tr0, used0, n, q, book, q', book');
    DrainNext(tr0, used0, n, b0, b, b', q, book, q', book');
  }

  /** Where the loop stops. */
  lemma DrainStop(tr0: seq<Tr>, used0: seq<nat>, n: nat, b0: Board, tr: seq<Tr>, used: seq<nat>, b: Board, b': Board, ok: bool)
    requires Draining(tr0, used0, n, b0, tr, used, b) && b' == b.(log := b'.log)
    requires b'.log == b.log || (!ok && used != [] && used[0] < |tr| && b'.log == b.log + [CommitRec(tr[used[0]].id)])
    ensures Drained(tr0, used0, n, b0, b', ok) && forall i :: n <= i < |used0| ==> SameSlot(tr0, tr, used0[i])
  {
    DrainHead(tr0, used0, n, b0, tr, used, b);
    hide Effect, CommitRecs, Dones, SameSlot, NoDup;
    EffectLog(Dones(tr0, used0, n), b0, b, b');
  }

  // ----- The log against the map -----

  /** The commit record of the transaction is in the log. */
  ghost predicate Noted(log: seq<LogRec>, t: Tr) { CommitRec(t.id) in log }

  ghost predicate Unused(log: seq<LogRec>, id: nat) {
    Pending(log, id) == [] && CommitRec(id) !in log
  }

  /** The map that the log stands for: the oldest transaction may have its commit record already,
      appended before its flush failed. */
  ghost function Ahead(log: seq<LogRec>, gl: seq<nat>, tr: seq<Tr>, used: seq<nat>): seq<nat> {
    if used != [] && used[0] < |tr| && tr[used[0]].kind.LbaNs? && Noted(log, tr[used[0]]) && InMap(gl, tr[used[0]].entries)
    then Apply(gl, tr[used[0]].entries) else gl
  }

  ghost predicate NotedAsHead(log: seq<LogRec>, gl: seq<nat>, tr: seq<Tr>, used: seq<nat>, s: nat)
    requires s < |tr| && used != []
  {
    s == used[0] && tr[s].committed && (tr[s].kind.LbaNs? ==> InMap(gl, tr[s].entries))
  }

  ghost predicate PendingOk(log: seq<LogRec>, t: Tr) {
    Covered(Pending(log, t.id), t.entries) && (t.kind.Gc? || Noted(log, t) ==> Pending(log, t.id) == [])
  }

  /** The log recovers to the map, with the oldest transaction if its commit record is there; no other
      queued transaction has one. */
  ghost predicate RedoBase(gl0: seq<nat>, log: seq<LogRec>, gl: seq<nat>, tr: seq<Tr>, used: seq<nat>, next: nat) {
    && (forall s :: s in used && s < |tr| ==> PendingOk(log, tr[s]))
    && (forall s :: s in used && s < |tr| && Noted(log, tr[s]) ==> NotedAsHead(log, gl, tr, used, s))
    && (forall id :: next <= id ==> Unused(log, id))
    && Recover(gl0, log) == Ahead(log, gl, tr, used)
  }

  /** The records of every unfinished user transaction agree with its entries. */
  ghost predicate AgreeAll(log: seq<LogRec>, tr: seq<Tr>, used: seq<nat>) {
    forall s :: s in used && s < |tr| && tr[s].kind.LbaNs? && !Noted(log, tr[s]) ==> Agrees(Pending(log, tr[s].id), tr[s].entries)
  }

  ghost predicate RedoOk(gl0: seq<nat>, log: seq<LogRec>, gl: seq<nat>, tr: seq<Tr>, used: seq<nat>, next: nat) {
    RedoBase(gl0, log, gl, tr, used, next) && AgreeAll(log, tr, used)
  }

  /** Queued transactions have distinct creation numbers. */
  ghost predicate Distinct(tr: seq<Tr>, used: seq<nat>, next: nat) {
    && (forall s :: s in used ==> s < |tr| && tr[s].id < next)
    && (forall r, s :: r in used && s in used && r < |tr| && s < |tr| && r != s ==> tr[r].id != tr[s].id)
  }

  lemma IdsDistinct(tr: seq<Tr>, used: seq<nat>, past: Past)
    requires PastOk(tr, used, past)
    ensures Distinct(tr, used, past.next)
  {
    forall s | s in used ensures s < |tr| && tr[s].id < past.next {
      var j := IdAt(tr, used, past, s);
    }
    forall r, s | r in used && s in used && r < |tr| && s < |tr| && r != s ensures tr[r].id != tr[s].id {
      var i := IdAt(tr, used, past, r);
      var j := IdAt(tr, used, past, s);
      hide Ids;
    }
  }

  lemma IdAt(tr: seq<Tr>, used: seq<nat>, past: Past, s: nat) returns (j: nat)
    requires PastOk(tr, used, past) && s in used
    ensures s < |tr| && tr[s].id < past.next
    ensures var ids := Ids(tr, used, past.done); j < |ids| && ids[j] == tr[s].id && |past.done| <= j && used[j - |past.done|] == s
  {
    var i :| 0 <= i < |used| && used[i] == s;
    j := |past.done| + i;
    assert Ids(tr, used, past.done)[j] in Ids(tr, used, past.done);
  }

  /** Unless the oldest transaction waits for its commit to be repeated, recovery gives the map. */
  lemma RedoLaw(gl0: seq<nat>, log: seq<LogRec>, gl: seq<nat>, tr: seq<Tr>, used: seq<nat>, next: nat)
    requires RedoOk(gl0, log, gl, tr, used, next) && (used == [] || HeadWaits(tr, used))
    ensures Recover(gl0, log) == gl
  {
    if used != [] {
      assert used[0] in used;
    }
  }

  lemma NoneCovered(es: seq<Entry>)
    ensures Covered([], es)
  {
  }

  lemma RedoNew(gl0: seq<nat>, log: seq<LogRec>, gl: seq<nat>, tr: seq<Tr>, used: seq<nat>, next: nat, s: nat, t: Tr)
    requires RedoOk(gl0, log, gl, tr, used, next) && s < |tr| && s !in used && t.id == next
    requires forall i :: 0 <= i < |t.entries| ==> t.entries[i].ppa == 0
    ensures RedoOk(gl0, log, gl, tr[s := t], used + [s], next + 1)
  {
    hide Covered, Recover, Apply;
    var tr', used' := tr[s := t], used + [s];
    assert Unused(log, next);
    NoneCovered(t.entries);
    forall r | r in used' && r < |tr'| ensures r == s || (r in used && tr'[r] == tr[r]) {
    }
    assert used != [] ==> used'[0] == used[0] && used[0] in used;
  }

  lemma RedoFlag(gl0: seq<nat>, log: seq<LogRec>, gl: seq<nat>, tr: seq<Tr>, used: seq<nat>, next: nat, s: nat, t: Tr)
    requires RedoOk(gl0, log, gl, tr, used, next) && s < |tr|
    requires t == tr[s].(committed := t.committed, flush := t.flush, nalloc := t.nalloc) && (tr[s].committed ==> t.committed)
    ensures RedoOk(gl0, log, gl, tr[s := t], used, next)
  {
    hide Covered, Recover, Apply, Agrees, Pending;
  }

  lemma NotedAppend(log: seq<LogRec>, r: LogRec, t: Tr)
    ensures Noted(log + [r], t) <==> Noted(log, t) || r == CommitRec(t.id)
  {
    assert forall x :: x in log + [r] <==> x in log || x == r;
  }

  /** A commit record leaves the records of every other transaction alone. */
  lemma OthersAppend(log: seq<LogRec>, r: LogRec, tr: seq<Tr>, used: seq<nat>, next: nat, s: nat)
    requires Distinct(tr, used, next) && s in used && s < |tr| && r.id == tr[s].id
    requires forall id :: next <= id ==> Unused(log, id)
    ensures forall x :: x in used && x < |tr| && x != s ==>
              && Pending(log + [r], tr[x].id) == Pending(log, tr[x].id)
              && (Noted(log + [r], tr[x]) <==> Noted(log, tr[x]))
    ensures forall id :: next <= id ==> Unused(log + [r], id)
  {
    hide Pending;
    forall x | x in used && x < |tr| && x != s
      ensures Pending(log + [r], tr[x].id) == Pending(log, tr[x].id) && (Noted(log + [r], tr[x]) <==> Noted(log, tr[x]))
    {
      AppendRec([], log, r, tr[x].id);
      NotedAppend(log, r, tr[x]);
    }
    forall id | next <= id ensures Unused(log + [r], id) {
      assert Unused(log, id);
      AppendRec([], log, r, id);
    }
  }

  /** The commit record of the oldest transaction is appended: recovery now applies it, once. */
  lemma RedoNote(gl0: seq<nat>, log: seq<LogRec>, gl: seq<nat>, tr: seq<Tr>, used: seq<nat>, next: nat)
    requires RedoOk(gl0, log, gl, tr, used, next) && Distinct(tr, used, next)
    requires used != [] && used[0] in used && used[0] < |tr| && tr[used[0]].committed
    requires var t := tr[used[0]];
             t.kind.LbaNs? ==> InMap(gl, t.entries) && forall i :: 0 <= i < |t.entries| ==> t.entries[i].ppa != 0
    ensures var log' := log + [CommitRec(tr[used[0]].id)];
            RedoOk(gl0, log', gl, tr, used, next) && Noted(log', tr[used[0]])
  {
    hide Pending, Recover, Apply, Covered, Agrees, InMap;
    var s, t := used[0], tr[used[0]];
    var r := CommitRec(t.id);
    OthersAppend(log, r, tr, used, next, s);
    AppendRec(gl0, log, r, t.id);
    NotedAppend(log, r, t);
    NoneCovered(t.entries);
    if Noted(log, t) || t.kind.Gc? {
      assert PendingOk(log, t);
      assert Upserted(Recover(gl0, log), []) == Recover(gl0, log);
    } else {
      AgreeSame(gl, Pending(log, t.id), t.entries);
      UpsertedInMap(gl, Pending(log, t.id));
    }
  }

  /** The transactions of `used'` are queued in `used`, and as they were. */
  ghost predicate Among(tr: seq<Tr>, used: seq<nat>, tr': seq<Tr>, used': seq<nat>) {
    |tr'| == |tr| && forall x :: x in used' ==> x in used && (x < |tr| ==> tr'[x] == tr[x])
  }

  lemma AgreeAmong(log: seq<LogRec>, tr: seq<Tr>, used: seq<nat>, tr': seq<Tr>, used': seq<nat>)
    requires AgreeAll(log, tr, used) && Among(tr, used, tr', used')
    ensures AgreeAll(log, tr', used')
  {
    hide Agrees, Pending, Noted;
  }

  /** Some transactions leave the queue, and the oldest one is not among them. */
  lemma RedoBehind(gl0: seq<nat>, log: seq<LogRec>, gl: seq<nat>, tr: seq<Tr>, used: seq<nat>, next: nat,
                   tr': seq<Tr>, used': seq<nat>)
    requires RedoOk(gl0, log, gl, tr, used, next) && Among(tr, used, tr', used')
    requires used != [] && used' != [] && used'[0] == used[0]
    ensures RedoOk(gl0, log, gl, tr', used', next)
  {
    AgreeAmong(log, tr, used, tr', used');
    hide Agrees, AgreeAll, Pending, Noted, Recover, Apply, Covered, InMap, Unused;
    assert used'[0] in used';
  }

  /** Some transactions leave the queue, and none that stays has a commit record. */
  lemma RedoUnnoted(gl0: seq<nat>, log: seq<LogRec>, gl: seq<nat>, tr: seq<Tr>, used: seq<nat>, next: nat,
                    tr': seq<Tr>, used': seq<nat>)
    requires RedoOk(gl0, log, gl, tr, used, next) && Among(tr, used, tr', used')
    requires forall x :: x in used' && x < |tr| ==> !Noted(log, tr[x])
    ensures RedoOk(gl0, log, Ahead(log, gl, tr, used), tr', used', next)
  {
    AgreeAmong(log, tr, used, tr', used');
    hide Agrees, AgreeAll, Pending, Noted, Recover, Apply, Covered, InMap, Unused;
    assert used' != [] ==> used'[0] in used';
  }

  lemma OnlyHeadNoted(gl0: seq<nat>, log: seq<LogRec>, gl: seq<nat>, tr: seq<Tr>, used: seq<nat>, next: nat, x: nat)
    requires RedoOk(gl0, log, gl, tr, used, next) && x in used && x < |tr| && x != used[0]
    ensures !Noted(log, tr[x])
  {
    hide AgreeAll, Recover, Ahead, PendingOk, Unused;
  }

  /** The oldest transaction, whose commit record is in the log, leaves the queue. */
  lemma RedoFinish(gl0: seq<nat>, log: seq<LogRec>, gl: seq<nat>, tr: seq<Tr>, used: seq<nat>, next: nat, gl': seq<nat>)
    requires RedoOk(gl0, log, gl, tr, used, next) && NoDup(used)
    requires used != [] && used[0] < |tr| && Noted(log, tr[used[0]])
    requires if tr[used[0]].kind.LbaNs? then InMap(gl, tr[used[0]].entries) && gl' == Apply(gl, tr[used[0]].entries) else gl' == gl
    ensures RedoOk(gl0, log, gl', tr[used[0] := Blank(tr[used[0]])], used[1..], next)
  {
    PopFacts(used);
    hide RedoOk, Apply, NoDup, Noted, InMap, Blank;
    forall x | x in used[1..] && x < |tr| ensures !Noted(log, tr[x]) {
      OnlyHeadNoted(gl0, log, gl, tr, used, next, x);
    }
    RedoUnnoted(gl0, log, gl, tr, used, next, tr[used[0] := Blank(tr[used[0]])], used[1..]);
  }

  lemma RemoveHead(used: seq<nat>, s: nat)
    requires s in used && used[0] != s
    ensures var r := Remove(used, s); r != [] && r[0] == used[0]
  {
  }

  /** A transaction without a commit record leaves the queue. */
  lemma RedoRemove(gl0: seq<nat>, log: seq<LogRec>, gl: seq<nat>, tr: seq<Tr>, used: seq<nat>, next: nat, s: nat)
    requires RedoOk(gl0, log, gl, tr, used, next) && NoDup(used) && s in used && s < |tr|
    requires tr[s].kind.Gc? || !Noted(log, tr[s])
    ensures RedoOk(gl0, log, gl, tr[s := Blank(tr[s])], Remove(used, s), next)
  {
    RemoveFacts(used, s);
    hide RedoOk, Apply, NoDup, Noted, InMap, Remove, Blank;
    var tr', used' := tr[s := Blank(tr[s])], Remove(used, s);
    if used[0] == s {
      forall x | x in used' && x < |tr| ensures !Noted(log, tr[x]) {
        OnlyHeadNoted(gl0, log, gl, tr, used, next, x);
      }
      RedoUnnoted(gl0, log, gl, tr, used, next, tr', used');
    } else {
      RemoveHead(used, s);
      RedoBehind(gl0, log, gl, tr, used, next, tr', used');
    }
  }

  /** The commit record of the oldest transaction is appended; it stays first, or it is finished. */
  lemma RedoTry(q: Queue, past: Past, gl0: seq<nat>, log: seq<LogRec>, gl: seq<nat>)
    requires QueueOk(q) && PastOk(q.tr, q.used, past) && RedoOk(gl0, log, gl, q.tr, q.used, past.next)
    requires q.used != [] && q.used[0] < |q.tr| && q.tr[q.used[0]].committed
    requires q.tr[q.used[0]].kind.LbaNs? ==> InMap(gl, q.tr[q.used[0]].entries)
    ensures var s, t := q.used[0], q.tr[q.used[0]];
            var log' := log + [CommitRec(t.id)];
            && RedoOk(gl0, log', gl, q.tr, q.used, past.next)
            && RedoOk(gl0, log', if t.kind.LbaNs? then Apply(gl, t.entries) else gl, q.tr[s := Blank(t)], q.used[1..], past.next)
  {
    var s, t := q.used[0], q.tr[q.used[0]];
    IdsDistinct(q.tr, q.used, past);
    UsedInRange(q);
    AllSet(t.entries);
    assert s in q.used;
    assert t.kind.LbaNs? ==> forall i :: 0 <= i < |t.entries| ==> t.entries[i].ppa != 0;
    hide QueueOk, PastOk, RedoOk, NoDup;
    RedoNote(gl0, log, gl, q.tr, q.used, past.next);
    RedoFinish(gl0, log + [CommitRec(t.id)], gl, q.tr, q.used, past.next, if t.kind.LbaNs? then Apply(gl, t.entries) else gl);
  }

  lemma HeldUnmapped(q: Queue, book: Ledger, s: nat, i: nat)
    requires QueueOk(q) && Sectors(book) && book.held == q.held && s in q.used && s < |q.tr| && q.tr[s].kind.LbaNs?
    requires i < |q.tr[s].entries| && q.tr[s].entries[i].ppa != 0
    ensures q.tr[s].entries[i].ppa !in book.gl && q.tr[s].entries[i].ppa in book.owner
  {
    assert HoldsAt(q.tr, q.used, Key(s, i));
    hide QueueOk;
    var p := q.tr[s].entries[i].ppa;
    assert book.owner[p] == Held(Key(s, i));
    assert forall a :: 0 <= a < |book.gl| && book.gl[a] != 0 ==> book.owner[book.gl[a]] == Mapped(a);
  }

  /** Aborting keeps the law exactly if recovery has nothing of the transaction to apply: it is one of
      garbage collection, or its commit record is not in the log. */
  lemma RedoAbortIff(q: Queue, book: Ledger, gl0: seq<nat>, log: seq<LogRec>, next: nat, s: nat)
    requires QueueOk(q) && Sectors(book) && book.held == q.held && s in q.used && s < |q.tr| && q.tr[s].entries != []
    requires RedoOk(gl0, log, book.gl, q.tr, q.used, next)
    ensures RedoOk(gl0, log, book.gl, q.tr[s := Blank(q.tr[s])], Remove(q.used, s), next)
            <==> q.tr[s].kind.Gc? || !Noted(log, q.tr[s])
  {
    UsedInRange(q);
    if q.tr[s].kind.Gc? || !Noted(log, q.tr[s]) {
      RedoRemove(gl0, log, book.gl, q.tr, q.used, next, s);
    } else {
      RecordStays(q, book, gl0, log, next, s);
    }
  }

  lemma RecordStays(q: Queue, book: Ledger, gl0: seq<nat>, log: seq<LogRec>, next: nat, s: nat)
    requires QueueOk(q) && Sectors(book) && book.held == q.held && s in q.used && s < |q.tr| && q.tr[s].entries != []
    requires RedoBase(gl0, log, book.gl, q.tr, q.used, next) && q.tr[s].kind.LbaNs? && Noted(log, q.tr[s])
    ensures !RedoBase(gl0, log, book.gl, q.tr[s := Blank(q.tr[s])], Remove(q.used, s), next)
  {
    var es, used', last := q.tr[s].entries, Remove(q.used, s), |q.tr[s].entries| - 1;
    UsedInRange(q);
    RemoveFacts(q.used, s);
    AllSet(es);
    assert q.tr[s].committed && InMap(book.gl, es);
    HeldUnmapped(q, book, s, last);
    hide QueueOk, Sectors, NoDup, Remove;
    assert Apply(book.gl, es)[es[last].lba] == es[last].ppa;
    assert book.gl[es[last].lba] in book.gl;
    assert used' != [] ==> used'[0] in used';
  }

  /** The sector goes to an entry in turn: the last entry of the same logical block has none yet, nor
      gets one earlier in the list. */
  ghost predicate TurnAt(tr: seq<Tr>, ents: seq<Option<Key>>, m: nat)
    requires m < |ents| && (ents[m].Some? ==> Names(tr, ents[m].value))
  {
    ents[m].Some? ==>
      var k := ents[m].value;
      var es := tr[k.slot].entries;
      forall j: nat :: Final(es, j) && j != k.i && es[j].lba == es[k.i].lba ==> es[j].ppa == 0 && Some(Key(k.slot, j)) !in ents[..m]
  }

  ghost predicate InOrder(tr: seq<Tr>, ents: seq<Option<Key>>, n: nat)
    requires n <= |ents| && forall m :: 0 <= m < n && ents[m].Some? ==> Names(tr, ents[m].value)
  {
    forall m :: 0 <= m < n ==> TurnAt(tr, ents, m)
  }

  /** What the filling of a list leaves of an entry. */
  lemma {:induction false} FilledAt(tr: seq<Tr>, ents: seq<Option<Key>>, ppas: seq<nat>, hi: nat, k: Key)
    requires hi <= |ents| == |ppas| && Names(tr, k) && 0 !in ppas
    requires forall n :: 0 <= n < |ents| && ents[n].Some? ==> Names(tr, ents[n].value)
    ensures var r := FillRange(tr, ents, ppas, 0, hi);
            && |r[k.slot].entries| == |tr[k.slot].entries|
            && r[k.slot].entries[k.i].lba == tr[k.slot].entries[k.i].lba
            && (r[k.slot].entries[k.i].ppa != 0 <==> tr[k.slot].entries[k.i].ppa != 0 || Some(k) in ents[..hi])
    decreases hi
  {
    if hi != 0 {
      FilledAt(tr, ents, ppas, hi - 1, k);
      assert ents[..hi] == ents[..hi - 1] + [ents[hi - 1]];
      assert ppas[hi - 1] in ppas;
    }
  }

  lemma TurnIff(tr: seq<Tr>, ents: seq<Option<Key>>, ppas: seq<nat>, m: nat)
    requires m < |ents| == |ppas| && 0 !in ppas && ents[m].Some?
    requires forall n :: 0 <= n < |ents| && ents[n].Some? ==> Names(tr, ents[n].value)
    ensures var k, r := ents[m].value, FillRange(tr, ents, ppas, 0, m);
            InTurn(r[k.slot].entries, k.i) <==> TurnAt(tr, ents, m)
  {
    var k, r := ents[m].value, FillRange(tr, ents, ppas, 0, m);
    var es, es' := tr[k.slot].entries, r[k.slot].entries;
    FilledAt(tr, ents, ppas, m, k);
    forall j: nat | j < |es|
      ensures es'[j].lba == es[j].lba && (es'[j].ppa != 0 <==> es[j].ppa != 0 || Some(Key(k.slot, j)) in ents[..m])
    {
      FilledAt(tr, ents, ppas, m, Key(k.slot, j));
    }
    hide FillRange;
    forall j: nat ensures Final(es', j) <==> Final(es, j) {
    }
  }

  /** An entry gets a sector and a record: the log still recovers to the map, and it still agrees with
      the unfinished transactions exactly if it was the entry's turn. */
  lemma RedoFill(gl0: seq<nat>, log: seq<LogRec>, gl: seq<nat>, tr: seq<Tr>, used: seq<nat>, next: nat, k: Key, p: nat)
    requires RedoBase(gl0, log, gl, tr, used, next) && Distinct(tr, used, next)
    requires k.slot in used && Names(tr, k) && tr[k.slot].kind.LbaNs? && !tr[k.slot].committed
    requires tr[k.slot].entries[k.i].ppa == 0 && NewTo(tr[k.slot].entries, p)
    ensures var log', tr' := log + [Write(tr[k.slot].id, tr[k.slot].entries[k.i].lba, p)], Fill(tr, k, p);
            && RedoBase(gl0, log', gl, tr', used, next)
            && (AgreeAll(log', tr', used) <==> AgreeAll(log, tr, used) && InTurn(tr[k.slot].entries, k.i))
  {
    hide Pending, Recover, Apply, Covered, Agrees, InTurn, Final;
    var s, t := k.slot, tr[k.slot];
    var r := Write(t.id, t.entries[k.i].lba, p);
    var log', tr' := log + [r], Fill(tr, k, p);
    OthersAppend(log, r, tr, used, next, s);
    AppendRec(gl0, log, r, t.id);
    NotedAppend(log, r, t);
    assert PendingOk(log, t) && !Noted(log, t);
    AgreeFillIff(Pending(log, t.id), t.entries, k.i, p);
    assert used != [] ==> used[0] in used;
    FillAgrees(log, log', tr, tr', used, s);
  }

  /** A fresh sector is one that the entries of the transaction do not have. */
  lemma FreshIsNew(q: Queue, book: Ledger, s: nat, p: nat)
    requires QueueOk(q) && Sectors(book) && book.held == q.held && s in q.used && s < |q.tr| && q.tr[s].kind.LbaNs?
    requires p != 0 && p !in book.owner
    ensures NewTo(q.tr[s].entries, p)
  {
    hide QueueOk, Sectors;
    forall i: nat | i < |q.tr[s].entries| && q.tr[s].entries[i].ppa != 0 ensures q.tr[s].entries[i].ppa != p {
      HeldUnmapped(q, book, s, i);
    }
  }

  lemma StillOpen(q: Queue, k: Key)
    requires QueueOk(q) && k.slot in q.used && Names(q.tr, k) && q.tr[k.slot].kind.LbaNs?
    requires q.tr[k.slot].entries[k.i].ppa == 0
    ensures !q.tr[k.slot].committed
  {
    AllSet(q.tr[k.slot].entries);
  }

  /** The first `n` entries of an allocation are filled and recorded in `log'`. */
  ghost predicate RedoTo(gl0: seq<nat>, gl: seq<nat>, used: seq<nat>, next: nat, log: seq<LogRec>, tr: seq<Tr>,
                         log': seq<LogRec>, tr': seq<Tr>, ents: seq<Option<Key>>, n: nat)
    requires n <= |ents| && forall m :: 0 <= m < n && ents[m].Some? ==> Names(tr, ents[m].value)
  {
    && RedoBase(gl0, log', gl, tr', used, next)
    && (AgreeAll(log', tr', used) <==> AgreeAll(log, tr, used) && InOrder(tr, ents, n))
  }

  lemma RedoStart(gl0: seq<nat>, gl: seq<nat>, used: seq<nat>, next: nat, log: seq<LogRec>, tr: seq<Tr>, ents: seq<Option<Key>>)
    ensures RedoBase(gl0, log, gl, tr, used, next) ==> RedoTo(gl0, gl, used, next, log, tr, log, tr, ents, 0)
  {
    hide RedoBase, AgreeAll;
  }

  lemma RedoSkip(gl0: seq<nat>, gl: seq<nat>, used: seq<nat>, next: nat, log: seq<LogRec>, tr: seq<Tr>,
                 log': seq<LogRec>, tr': seq<Tr>, ents: seq<Option<Key>>, n: nat)
    requires n < |ents| && ents[n].None? && forall m :: 0 <= m < |ents| && ents[m].Some? ==> Names(tr, ents[m].value)
    requires RedoTo(gl0, gl, used, next, log, tr, log', tr', ents, n)
    ensures RedoTo(gl0, gl, used, next, log, tr, log', tr', ents, n + 1)
  {
    hide RedoBase, AgreeAll;
  }

  lemma RedoNext(q: Queue, book: Ledger, past: Past, gl0: seq<nat>, log: seq<LogRec>, tr: seq<Tr>, log': seq<LogRec>,
                 ents: seq<Option<Key>>, ppas: seq<nat>, n: nat)
    requires QueueOk(q) && Sectors(book) && book.held == q.held && PastOk(q.tr, q.used, past)
    requires n < |ents| == |ppas| && 0 !in ppas && forall m :: 0 <= m < |ents| && ents[m].Some? ==> Names(tr, ents[m].value)
    requires q.tr == FillRange(tr, ents, ppas, 0, n)
    requires RedoTo(gl0, book.gl, q.used, past.next, log, tr, log', q.tr, ents, n) && ents[n].Some? && ppas[n] !in book.owner
    requires var k := ents[n].value;
             k.slot in q.used && Names(q.tr, k) && q.tr[k.slot].kind.LbaNs? && q.tr[k.slot].entries[k.i].ppa == 0
    ensures var k := ents[n].value;
            RedoTo(gl0, book.gl, q.used, past.next, log, tr,
                   log' + [Write(q.tr[k.slot].id, q.tr[k.slot].entries[k.i].lba, ppas[n])],
                   Fill(q.tr, k, ppas[n]), ents, n + 1)
  {
    hide QueueOk, Sectors, PastOk, Fill, FillRange, RedoBase, AgreeAll, TurnAt, NewTo, InTurn;
    var k := ents[n].value;
    assert ppas[n] in ppas;
    IdsDistinct(q.tr, q.used, past);
    FreshIsNew(q, book, k.slot, ppas[n]);
    StillOpen(q, k);
    RedoFill(gl0, log', book.gl, q.tr, q.used, past.next, k, ppas[n]);
    TurnIff(tr, ents, ppas, n);
  }

  lemma FillAgrees(log: seq<LogRec>, log': seq<LogRec>, tr: seq<Tr>, tr': seq<Tr>, used: seq<nat>, s: nat)
    requires s in used && s < |tr| == |tr'| && tr[s].kind.LbaNs? && tr'[s].kind.LbaNs? && !Noted(log, tr[s]) && !Noted(log', tr'[s])
    requires forall x :: x in used && x < |tr| && x != s ==>
               && tr'[x] == tr[x] && Pending(log', tr[x].id) == Pending(log, tr[x].id)
               && (Noted(log', tr[x]) <==> Noted(log, tr[x]))
    requires Agrees(Pending(log', tr'[s].id), tr'[s].entries) ==> Agrees(Pending(log, tr[s].id), tr[s].entries)
    ensures AgreeAll(log', tr', used) <==> AgreeAll(log, tr, used) && Agrees(Pending(log', tr'[s].id), tr'[s].entries)
  {
    hide Agrees, Pending, Noted;
  }

  ghost predicate Yes(answers: nat -> bool, k: nat, n: nat) {
    forall i :: k <= i < k + n ==> answers(i)
  }

  /** How many upserts a commit makes. */
  ghost function Upserts(t: Tr): nat { if t.kind.LbaNs? then |t.entries| else 0 }

  /** All upserts succeed, and the commit record is appended; the answers are those from `k` on. */
  ghost predicate Recorded(t: Tr, gl: seq<nat>, answers: nat -> bool, k: nat) {
    (t.kind.LbaNs? ==> InMap(gl, t.entries)) && Yes(answers, k, Upserts(t) + 1)
  }

  /** The flush after the commit record succeeds. */
  ghost predicate Flushed(t: Tr, answers: nat -> bool, k: nat) { answers(k + Upserts(t) + 1) }

  /** The oldest transaction is committed and recorded, but its flush fails. */
  ghost predicate StopsAtOnce(tr: seq<Tr>, used: seq<nat>, gl: seq<nat>, answers: nat -> bool, k: nat) {
    && used != [] && used[0] < |tr| && tr[used[0]].committed && tr[used[0]].flush
    && Recorded(tr[used[0]], gl, answers, k) && !Flushed(tr[used[0]], answers, k)
  }

  /** The commit of the oldest transaction has not been called yet. */
  ghost predicate HeadWaits(tr: seq<Tr>, used: seq<nat>) {
    used != [] && used[0] < |tr| && !tr[used[0]].committed
  }

  class Manager {
    var tr: seq<Tr>
    var free: seq<nat>
    var used: seq<nat>
    var gl: seq<nat>
    var invalid: set<nat>
    var log: seq<LogRec>
    var next: nat
    ghost var owner: map<nat, Owner>
    ghost var held: map<Key, nat>
    ghost var gl0: seq<nat>
    ghost var done: seq<Done>
    ghost var aborted: set<nat>
    /** Whether the map and the log succeed when they are asked for the n-th time, and how often they
        have been asked. */
    const answers: nat -> bool
    var asked: nat
    /** How often they have failed. */
    ghost var faults: nat

    ghost function Shown(): Board
      reads this
    {
      Board(done, gl, invalid, log)
    }

    ghost function Book(): Ledger
      reads this
    {
      Ledger(owner, held, gl, invalid)
    }

    ghost predicate Valid()
      reads this
    {
      && QueueOk(Queue(tr, free, used, held))
      && Sectors(Book())
      && PastOk(tr, used, Past(done, aborted, next))
      && Folded(gl0, done, gl)
    }

    /** What recovery makes of the log is the map, up to the oldest transaction if its commit record is
        already there, and will stay so when the unfinished transactions commit. */
    ghost predicate Redo()
      reads this
    {
      RedoOk(gl0, log, gl, tr, used, next)
    }

    /** `n` transaction slots over a map in which no sector serves two logical blocks. */
    constructor (n: nat, table: seq<nat>, answers: nat -> bool)
      requires Injective(table)
      ensures Valid() && gl == table && used == [] && |tr| == n == |free| && forall i :: 0 <= i < n ==> free[i] == i
      ensures Redo() && gl0 == table
      ensures this.answers == answers && asked == 0 && log == [] && done == [] && next == 0 && aborted == {} && owner == Owners(table)
    {
      this.answers, asked := answers, 0;
      tr := seq(n, _ => Tr(0, LbaNs, [], 0, false, false));
      free := seq(n, i => i);
      used, gl, invalid, log, next := [], table, {}, [], 0;
      gl0, done, aborted, held, owner, faults := table, [], {}, map[], Owners(table), 0;
      StartOk(n, table);
    }

    /** Starts a transaction over the given logical blocks; too many are refused. The caller waits
        until a slot is free. */
    method New(lbas: seq<nat>, kind: Kind) returns (r: Option<nat>)
      requires Valid() && lbas != [] && free != []
      modifies this`tr, this`free, this`used, this`next
      ensures Valid()
      ensures r.None? <==> MAX_ENTRIES < |lbas|
      ensures r.None? ==> used == old(used) && tr == old(tr)
      ensures r.Some? ==> used == old(used) + [r.value] && r.value !in old(used) && r.value < |tr|
                          && tr[r.value].entries == seq(|lbas|, i requires 0 <= i < |lbas| => Entry(lbas[i], 0))
                          && !tr[r.value].committed && !tr[r.value].flush && tr[r.value].kind == kind && tr[r.value].nalloc == 0
                          && |tr| == |old(tr)| && r.value == old(free)[0] && tr[r.value].id == old(next) && next == old(next) + 1
      ensures old(Redo()) ==> Redo()
    {
      hide RedoOk, QueueOk, PastOk, Sectors, Folded;
      if MAX_ENTRIES < |lbas| {
        return None;
      }
      var s := free[0];
      var es := seq(|lbas|, i requires 0 <= i < |lbas| => Entry(lbas[i], 0));
      var t := Tr(next, kind, es, 0, false, false);
      NoneSet(es);
      FreeInRange(Queue(tr, free, used, held));
      NewKeepsLists(tr, free, used, held, t);
      if Redo() {
        RedoNew(gl0, log, gl, tr, used, next, s, t);
      }
      NewKeepsOrder(tr, used, Past(done, aborted, next), s, t);
      free := free[1..];
      used := used + [s];
      tr := tr[s := t];
      next := next + 1;
      r := Some(s);
    }

    /** The global map takes a sector for a logical block and reports the one it replaces; it may
        fail, and it fails for a block outside the map. */
    method Upsert(lba: nat, ppa: nat) returns (ok: bool, prev: nat)
      modifies this`gl, this`faults, this`asked
      ensures old(faults) <= faults && (ok <==> faults == old(faults))
      ensures asked == old(asked) + 1 && (ok <==> answers(old(asked)) && lba < |old(gl)|)
      ensures ok ==> lba < |old(gl)| && prev == old(gl)[lba] && gl == old(gl)[lba := ppa]
      ensures !ok ==> gl == old(gl)
    {
      prev := 0;
      ok := answers(asked) && lba < |gl|;
      asked := asked + 1;
      if ok {
        prev := gl[lba];
        gl := gl[lba := ppa];
      } else {
        faults := faults + 1;
      }
    }

    /** The log takes the records, or fails and takes none. */
    method LogAppend(recs: seq<LogRec>) returns (ok: bool)
      modifies this`log, this`faults, this`asked
      ensures old(faults) <= faults && (ok <==> faults == old(faults))
      ensures log == old(log) + if ok then recs else []
      ensures asked == old(asked) + 1 && ok == answers(old(asked))
    {
      ok := answers(asked);
      asked := asked + 1;
      if ok {
        log := log + recs;
      } else {
        faults := faults + 1;
      }
    }

    method LogFlush() returns (ok: bool)
      modifies this`faults, this`asked
      ensures old(faults) <= faults && (ok <==> faults == old(faults))
      ensures asked == old(asked) + 1 && ok == answers(old(asked))
    {
      ok := answers(asked);
      asked := asked + 1;
      if !ok {
        faults := faults + 1;
      }
    }

    /** Applies the entries in order until one fails; `n` of them took effect. */
    method UpsertAll(es: seq<Entry>) returns (olds: seq<nat>, n: nat)
      modifies this`gl, this`faults, this`asked
      ensures old(faults) <= faults && (n == |es| <==> faults == old(faults))
      ensures n == |es| <==> InMap(old(gl), es) && Yes(answers, old(asked), |es|)
      ensures n == |es| ==> asked == old(asked) + |es|
      ensures n <= |es| && InMap(old(gl), es[..n]) && gl == Apply(old(gl), es[..n])
      ensures |olds| == n && forall i :: 0 <= i < n ==> olds[i] == Replaced(old(gl), es[..n], i)
    {
      olds, n := [], 0;
      while n < |es|
        invariant n <= |es| && InMap(old(gl), es[..n]) && gl == Apply(old(gl), es[..n]) && faults == old(faults)
        invariant asked == old(asked) + n && Yes(answers, old(asked), n)
        invariant |olds| == n && forall i :: 0 <= i < n ==> olds[i] == Replaced(old(gl), es[..n], i)
      {
        var ok, prev := Upsert(es[n].lba, es[n].ppa);
        if !ok {
          return;
        }
        assert es[..n + 1][..n] == es[..n];
        assert forall i :: 0 <= i < n ==> es[..n + 1][..i] == es[..n][..i];
        ApplyStep(old(gl), es[..n + 1], n);
        assert es[..n + 1][..n + 1] == es[..n + 1];
        olds, n := olds + [prev], n + 1;
      }
    }

    /** Puts the replaced sectors back in reverse order: the map is what it was before, whatever
        logical blocks the entries repeat. */
    method Rollback(es: seq<Entry>, olds: seq<nat>, ghost before: seq<nat>)
      requires InMap(before, es) && |olds| == |es| && gl == Apply(before, es)
      requires forall i :: 0 <= i < |es| ==> olds[i] == Replaced(before, es, i)
      modifies this`gl
      ensures gl == before
    {
      var i := |es|;
      assert es[..i] == es;
      while i != 0
        invariant 0 <= i <= |es| && gl == Apply(before, es[..i])
      {
        i := i - 1;
        ApplyStep(before, es, i);
        gl := gl[es[i].lba := olds[i]];
      }
    }

    /** Invalidates the sectors that a commit replaced. */
    method InvalidateOld(es: seq<Entry>, olds: seq<nat>, ghost before: seq<nat>)
      requires InMap(before, es) && |olds| == |es|
      requires forall i :: 0 <= i < |es| ==> olds[i] == Replaced(before, es, i)
      modifies this`invalid
      ensures invalid == old(invalid) + Overwritten(before, es, |es|)
    {
      for i := 0 to |es|
        invariant invalid == old(invalid) + Overwritten(before, es, i)
      {
        OverwrittenStep(before, es, i + 1);
        if olds[i] != 0 {
          invalid := invalid + {olds[i]};
        }
      }
    }

    /** The slot of a finished or aborted transaction goes back to the free list. */
    method Recycle(s: nat)
      requires QueueOk(Queue(tr, free, used, held)) && s in used && s < |tr|
      modifies this`tr, this`free, this`used, this`held
      ensures QueueOk(Queue(tr, free, used, held))
      ensures used == Remove(old(used), s) && held == Without(old(held), s)
      ensures tr == old(tr)[s := Blank(old(tr)[s])] && free == old(free) + [s]
    {
      RecycleKeepsLists(tr, free, used, held, s, Blank(tr[s]));
      tr := tr[s := tr[s].(nalloc := 0, committed := false, entries := [])];
      used := Remove(used, s);
      free := free + [s];
      held := Without(held, s);
    }

    /** Applies a transaction to the map, appends its commit record and flushes the log if asked
        to; if any of these fails, the map is put back. */
    method TryApply(t: Tr) returns (ok: bool, olds: seq<nat>)
      modifies this`gl, this`log, this`faults, this`asked
      ensures old(faults) <= faults && (ok <==> faults == old(faults))
      ensures log == old(log) + if Recorded(t, old(gl), answers, old(asked)) then [CommitRec(t.id)] else []
      ensures ok <==> Recorded(t, old(gl), answers, old(asked)) && (t.flush ==> Flushed(t, answers, old(asked)))
      ensures !ok ==> gl == old(gl)
      ensures ok && t.kind.Gc? ==> gl == old(gl)
      ensures ok && t.kind.LbaNs? ==>
                && InMap(old(gl), t.entries) && gl == Apply(old(gl), t.entries) && |olds| == |t.entries|
                && forall i :: 0 <= i < |olds| ==> olds[i] == Replaced(old(gl), t.entries, i)
    {
      var n := 0;
      olds, ok := [], true;
      if t.kind.LbaNs? {
        olds, n := UpsertAll(t.entries);
        ok := n == |t.entries|;
      }
      if ok {
        ok := LogAppend([CommitRec(t.id)]);
      }
      if ok && t.flush {
        ok := LogFlush();
      }
      if !ok && t.kind.LbaNs? {
        Rollback(t.entries[..n], olds, old(gl));
      }
      assert ok && t.kind.LbaNs? ==> t.entries[..n] == t.entries;
    }

    /** Tries to commit the oldest transaction: on success it takes effect on the map, exactly the
        sectors it overwrote are invalidated and its slot is recycled; if the map, the log or the
        flush fails, everything but the log is as before and the transaction stays first. */
    method CommitHead() returns (ok: bool)
      requires Valid() && used != [] && used[0] < |tr| && tr[used[0]].committed
      modifies this`tr, this`free, this`used, this`gl, this`invalid, this`log, this`owner, this`held, this`done, this`faults, this`asked
      ensures Valid() && old(faults) <= faults && (ok <==> faults == old(faults))
      ensures if ok then Committed(old(Queue(tr, free, used, held)), old(Book()), Queue(tr, free, used, held), Book())
                         && done == old(done) + [DoneOf(old(tr)[old(used)[0]])]
              else Queue(tr, free, used, held) == old(Queue(tr, free, used, held)) && Book() == old(Book())
                   && done == old(done)
      ensures var t := old(tr)[old(used)[0]];
              && log == old(log) + (if Recorded(t, old(gl), answers, old(asked)) then [CommitRec(t.id)] else [])
              && (ok <==> Recorded(t, old(gl), answers, old(asked)) && (t.flush ==> Flushed(t, answers, old(asked))))
      ensures old(Redo()) ==> Redo()
    {
      hide QueueOk, PastOk, Sectors, Folded, Overwritten, Apply, InMap, Replaced, RedoOk, Yes;
      var olds;
      ghost var book := Book();
      if Redo() && Recorded(tr[used[0]], gl, answers, asked) {
        RedoTry(Queue(tr, free, used, held), Past(done, aborted, next), gl0, log, gl);
      }
      ok, olds := TryApply(tr[used[0]]);
      assert log == old(log) || log == old(log) + [CommitRec(tr[used[0]].id)];
      if ok {
        FinishHead(olds, book);
      }
    }

    /** The oldest transaction is on the map (it was not in `book`): the sectors it overwrote are
        invalidated and its slot is recycled. */
    method FinishHead(olds: seq<nat>, ghost book: Ledger)
      requires QueueOk(Queue(tr, free, used, held)) && used != [] && used[0] < |tr| && tr[used[0]].committed
      requires book == Book().(gl := book.gl) && Sectors(book)
      requires PastOk(tr, used, Past(done, aborted, next)) && Folded(gl0, done, book.gl)
      requires tr[used[0]].kind.Gc? ==> gl == book.gl
      requires var es := tr[used[0]].entries;
               tr[used[0]].kind.LbaNs? ==>
                 && InMap(book.gl, es) && gl == Apply(book.gl, es) && |olds| == |es|
                 && forall i :: 0 <= i < |olds| ==> olds[i] == Replaced(book.gl, es, i)
      modifies this`tr, this`free, this`used, this`invalid, this`owner, this`held, this`done
      ensures Valid() && done == old(done) + [DoneOf(old(tr)[old(used)[0]])]
      ensures Committed(old(Queue(tr, free, used, held)), book, Queue(tr, free, used, held), Book())
    {
      hide QueueOk, PastOk, Sectors, Folded, Overwritten, Apply, InMap, LandFirst, Ready, Without, Remove, Replaced;
      var s := used[0];
      var t := tr[s];
      HeadDone(Queue(tr, free, used, held), book, gl0, Past(done, aborted, next));
      if t.kind.LbaNs? {
        InvalidateOld(t.entries, olds, book.gl);
        owner := LandFirst(book, s, t.entries, |t.entries|).owner;
      }
      Recycle(s);
      done := done + [DoneOf(t)];
    }

    /** Commits the queued transactions in creation order, up to the first one whose commit has not
        been called or whose commit fails; `n` of them finish. */
    method OrderedCommit() returns (ok: bool, ghost n: nat)
      requires Valid()
      modifies this`tr, this`free, this`used, this`gl, this`invalid, this`log, this`owner, this`held, this`done, this`faults, this`asked
      ensures Valid() && old(faults) <= faults && (ok <==> faults == old(faults))
      ensures n <= |old(used)| && used == old(used)[n..]
      ensures forall i :: n <= i < |old(used)| ==> SameSlot(old(tr), tr, old(used)[i])
      ensures Drained(old(tr), old(used), n, old(Shown()), Shown(), ok)
      ensures ok ==> used == [] || HeadWaits(tr, used)
      ensures !ok ==> used != [] && used[0] < |tr| && tr[used[0]].committed
      ensures StopsAtOnce(old(tr), old(used), old(gl), answers, old(asked)) ==>
                n == 0 && !ok && log == old(log) + [CommitRec(old(tr)[old(used)[0]].id)]
      ensures old(Redo()) ==> Redo()
    {
      hide RedoOk, QueueOk, PastOk, Sectors, Folded, Draining, Drained, Committed, SameSlot, DoneOf, NoDup, Recorded, Flushed;
      n := 0;
      UsedInRange(Queue(tr, free, used, held));
      DrainStart(tr, used, Shown());
      while used != [] && tr[used[0]].committed
        invariant Valid() && n <= |old(used)| && used == old(used)[n..]
        invariant Draining(old(tr), old(used), n, old(Shown()), tr, used, Shown())
        invariant faults == old(faults) && forall i :: 0 <= i < |used| ==> used[i] < |tr|
        invariant n == 0 ==> tr == old(tr) && gl == old(gl) && asked == old(asked) && log == old(log)
        invariant old(Redo()) ==> Redo()
        invariant n > 0 ==> !StopsAtOnce(old(tr), old(used), old(gl), answers, old(asked))
        decreases |used|
      {
        ghost var was, q, book := Shown(), Queue(tr, free, used, held), Book();
        DrainHead(old(tr), old(used), n, old(Shown()), tr, used, was);
        ok := CommitHead();
        if !ok {
          DrainStop(old(tr), old(used), n, old(Shown()), tr, used, was, Shown(), false);
          return;
        }
        DrainMore(old(tr), old(used), n, old(Shown()), was, Shown(), q, book, Queue(tr, free, used, held), Book());
        n := n + 1;
        DrainHead(old(tr), old(used), n, old(Shown()), tr, used, Shown());
      }
      DrainStop(old(tr), old(used), n, old(Shown()), tr, used, Shown(), Shown(), true);
      ok := true;
    }

    /** Completes a transaction: refused while entries lack a sector, otherwise every transaction
        that is now in turn takes effect. */
    method Commit(s: nat, flush: bool) returns (ret: bool)
      requires Valid() && s in used && s < |tr|
      modifies this`tr, this`free, this`used, this`gl, this`invalid, this`log, this`owner, this`held, this`done, this`faults, this`asked
      ensures Valid()
      ensures ret <==> old(tr)[s].nalloc == |old(tr)[s].entries|
      ensures !ret ==> tr == old(tr) && used == old(used) && gl == old(gl) && Shown() == old(Shown())
      ensures ret ==> exists n :: 0 <= n <= |old(used)| && used == old(used)[n..]
                        && Drained(old(tr)[s := old(tr)[s].(committed := true, flush := flush)], old(used), n,
                                   old(Shown()), Shown(), faults == old(faults))
      ensures old(faults) <= faults && (ret && faults == old(faults) ==> used == [] || HeadWaits(tr, used))
      ensures var tr0 := old(tr)[s := old(tr)[s].(committed := true, flush := flush)];
              ret && StopsAtOnce(tr0, old(used), old(gl), answers, old(asked)) ==>
                && used == old(used) && (forall i :: 0 <= i < |used| ==> SameSlot(tr0, tr, used[i]))
                && Shown() == old(Shown()).(log := old(log) + [CommitRec(tr0[used[0]].id)])
      ensures old(Redo()) ==> Redo() && (ret && faults == old(faults) ==> Recover(gl0, log) == gl)
    {
      hide QueueOk, RedoOk, PastOk, Sectors, Folded, Effect, CommitRecs, Drained;
      if tr[s].nalloc != |tr[s].entries| {
        return false;
      }
      var t := tr[s].(committed := true, flush := flush);
      FlagKeeps(Queue(tr, free, used, held), Past(done, aborted, next), s, t);
      if Redo() {
        RedoFlag(gl0, log, gl, tr, used, next, s, t);
      }
      tr := tr[s := t];
      ghost var was, stops := Shown(), StopsAtOnce(tr, used, gl, answers, asked);
      var ok, n := OrderedCommit();
      DrainedNone(old(tr)[s := t], old(used), was, Shown(), ok);
      ret := true;
      if Redo() && ok {
        RedoLaw(gl0, log, gl, tr, used, next);
      }
    }

    /** A commit of the oldest transaction that is recorded but not flushed leaves all but the log. */
    method CommitStops()
      requires Valid() && used != [] && used[0] in used && used[0] < |tr| && tr[used[0]].nalloc == |tr[used[0]].entries|
      requires StopsAtOnce(tr[used[0] := tr[used[0]].(committed := true, flush := true)], used, gl, answers, asked)
      modifies this`tr, this`free, this`used, this`gl, this`invalid, this`log, this`owner, this`held, this`done, this`faults, this`asked
      ensures Valid() && used == old(used) && gl == old(gl) && done == old(done)
      ensures used[0] < |tr| == |old(tr)| && tr[used[0]].id == old(tr)[used[0]].id && log == old(log) + [CommitRec(tr[used[0]].id)]
      ensures invalid == old(invalid) && tr[used[0]] == old(tr)[used[0]].(committed := true, flush := true)
    {
      hide QueueOk, PastOk, Sectors, Folded, Drained, StopsAtOnce, HeadWaits;
      ghost var tr0 := tr[used[0] := tr[used[0]].(committed := true, flush := true)];
      var ret := Commit(used[0], true);
      assert SameSlot(tr0, tr, used[0]);
    }

    /** Invalidates the sectors possibly written by a user transaction. */
    method InvalidateOwn(t: Tr)
      modifies this`invalid
      ensures invalid == old(invalid) + SetSectors(t)
    {
      for i := 0 to |t.entries|
        invariant invalid == old(invalid) + SetSectors(t.(entries := t.entries[..i]))
      {
        assert t.entries[..i + 1] == t.entries[..i] + [t.entries[i]];
        if t.kind.LbaNs? && t.entries[i].ppa != 0 {
          invalid := invalid + {t.entries[i].ppa};
        }
      }
      assert t.entries[..|t.entries|] == t.entries;
    }

    /** Takes an unfinished transaction off the queue; its sectors are invalidated. */
    method TakeOff(s: nat)
      requires Valid() && s in used && s < |tr|
      modifies this`tr, this`free, this`used, this`invalid, this`owner, this`held, this`aborted
      ensures Valid() && used == Remove(old(used), s) && tr == old(tr)[s := Blank(old(tr)[s])]
      ensures forall x :: x in used ==> x != s && x < |tr|
      ensures aborted == old(aborted) + {old(tr)[s].id} && invalid == old(invalid) + SetSectors(old(tr)[s])
      ensures old(Redo()) && (old(tr)[s].kind.Gc? || !Noted(log, old(tr)[s])) ==> Redo()
    {
      hide QueueOk, PastOk, Sectors, Folded, Without, RedoOk, Remove, SetSectors;
      AbortKeeps(Queue(tr, free, used, held), Book(), Past(done, aborted, next), s);
      UsedInRange(Queue(tr, free, used, held));
      if Redo() && (tr[s].kind.Gc? || !Noted(log, tr[s])) {
        RedoRemove(gl0, log, gl, tr, used, next, s);
      }
      InvalidateOwn(tr[s]);
      owner := DropAll(old(Book()), s).owner;
      Recycle(s);
      aborted := aborted + {old(tr)[s].id};
    }

    /** Aborts an unfinished transaction: its sectors are invalidated, it never takes effect, and
        the transactions behind it that are now in turn do. */
    method Abort(s: nat)
      requires Valid() && s in used && s < |tr|
      modifies this`tr, this`free, this`used, this`gl, this`invalid, this`log, this`owner, this`held, this`done, this`faults, this`asked, this`aborted
      ensures Valid()
      ensures aborted == old(aborted) + {old(tr)[s].id}
      ensures exists n :: 0 <= n <= |Remove(old(used), s)| && used == Remove(old(used), s)[n..]
                && Drained(old(tr), Remove(old(used), s), n,
                           old(Shown()).(invalid := old(invalid) + SetSectors(old(tr)[s])), Shown(), faults == old(faults))
      ensures old(faults) <= faults && (faults == old(faults) ==> used == [] || HeadWaits(tr, used))
      ensures old(Redo()) && (old(tr)[s].kind.Gc? || !Noted(old(log), old(tr)[s])) ==>
                Redo() && (faults == old(faults) ==> Recover(gl0, log) == gl)
    {
      hide QueueOk, PastOk, Sectors, Folded, RedoOk, Remove, HeadWaits, SetSectors, Noted, Drained, SameSlot;
      TakeOff(s);
      ghost var tr1, used1, was := tr, used, Shown();
      var ok, n := OrderedCommit();
      DrainedSame(old(tr), tr1, used1, n, was, Shown(), ok);
      if Redo() && ok {
        RedoLaw(gl0, log, gl, tr, used, next);
      }
    }

    /** Gives a fresh sector to one entry. */
    method FillOne(k: Key, p: nat)
      requires Valid() && k.slot in used && Names(tr, k) && tr[k.slot].kind.LbaNs?
      requires tr[k.slot].entries[k.i].ppa == 0 && p != 0 && p !in owner
      modifies this`tr, this`owner, this`held
      ensures Valid() && tr == Fill(old(tr), k, p)
      ensures owner == old(owner)[p := Held(k)] && held == old(held)[k := p]
    {
      hide QueueOk, PastOk, Sectors, Folded;
      AssignKeeps(Queue(tr, free, used, held), Past(done, aborted, next), k, p);
      GrantKeeps(Book(), k, p);
      var t := tr[k.slot];
      t := t.(entries := t.entries[k.i := t.entries[k.i].(ppa := p)]);
      t := t.(nalloc := t.nalloc + 1);
      tr := tr[k.slot := t];
      owner, held := owner[p := Held(k)], held[k := p];
    }

    /** Gives the fresh sectors to the entries that are not padding, and prepares their log records. */
    method AssignAll(ents: seq<Option<Key>>, ppas: seq<nat>) returns (recs: seq<LogRec>)
      requires Valid() && Unassigned(tr, used, ents) && Fresh(owner, ppas) && |ents| == |ppas|
      modifies this`tr, this`owner, this`held
      ensures Valid() && tr == FillRange(old(tr), ents, ppas, 0, |ents|)
      ensures held == old(held) + Wanted(ents, ppas, |ents|)
      ensures recs == Records(old(tr), ents, ppas, |ents|)
      ensures RedoBase(gl0, log, gl, old(tr), used, next) ==>
                RedoTo(gl0, gl, used, next, log, old(tr), log + recs, tr, ents, |ents|)
    {
      hide QueueOk, PastOk, Sectors, Folded, Fill, RedoTo, RedoBase, Wanted;
      recs := [];
      WantedNone(held, ents, ppas);
      RedoStart(gl0, gl, used, next, log, tr, ents);
      assert log + recs == log;
      for n := 0 to |ents|
        invariant Valid() && tr == FillRange(old(tr), ents, ppas, 0, n)
        invariant forall m :: n <= m < |ppas| ==> ppas[m] !in owner
        invariant held == old(held) + Wanted(ents, ppas, n)
        invariant recs == Records(old(tr), ents, ppas, n)
        invariant RedoBase(gl0, log, gl, old(tr), used, next) ==>
                    RedoTo(gl0, gl, used, next, log, old(tr), log + recs, tr, ents, n)
      {
        WantedNext(old(held), ents, ppas, n);
        if ents[n].Some? {
          var k := ents[n].value;
          FillRangeElse(old(tr), ents, ppas, 0, n, k);
          ghost var was := recs;
          if RedoBase(gl0, log, gl, old(tr), used, next) {
            RedoNext(Queue(tr, free, used, held), Book(), Past(done, aborted, next), gl0, log, old(tr), log + recs, ents, ppas, n);
          }
          recs := recs + [Write(tr[k.slot].id, tr[k.slot].entries[k.i].lba, ppas[n])];
          assert log + recs == log + was + [recs[|was|]];
          FillOne(k, ppas[n]);
        } else if RedoBase(gl0, log, gl, old(tr), used, next) {
          RedoSkip(gl0, gl, used, next, log, old(tr), log + recs, tr, ents, n);
        }
      }
    }

    /** Takes the sectors back from the entries after the log refused the allocation. */
    method ClearAll(ents: seq<Option<Key>>, ppas: seq<nat>, ghost tr0: seq<Tr>)
      requires |ents| == |ppas| && Unassigned(tr0, used, ents) && tr == FillRange(tr0, ents, ppas, 0, |ents|)
      modifies this`tr
      ensures tr == tr0
    {
      hide Fill;
      for n := 0 to |ents|
        invariant tr == FillRange(tr0, ents, ppas, n, |ents|)
      {
        if ents[n].Some? {
          ClearFirst(tr0, ents, ppas, n);
          var k := ents[n].value;
          var t := tr[k.slot];
          t := t.(entries := t.entries[k.i := t.entries[k.i].(ppa := 0)]);
          t := t.(nalloc := t.nalloc - 1);
          tr := tr[k.slot := t];
        } else {
          SkipPadding(tr0, ents, ppas, n, |ents|);
        }
      }
    }

    /** Invalidates every sector of a failed allocation, the padding included. */
    method ScrapAll(ppas: seq<nat>)
      requires Sectors(Book()) && Fresh(owner, ppas)
      modifies this`invalid, this`owner
      ensures Sectors(Book()) && invalid == old(invalid) + (set n | 0 <= n < |ppas| :: ppas[n])
    {
      hide Sectors;
      for n := 0 to |ppas|
        invariant Sectors(Book()) && invalid == old(invalid) + (set m | 0 <= m < n :: ppas[m])
        invariant forall m :: n <= m < |ppas| ==> ppas[m] !in owner
      {
        ScrapKeeps(Book(), ppas[n]);
        invalid := invalid + {ppas[n]};
        owner := owner[ppas[n] := Invalid];
      }
    }

    /** Allocates sectors to a page-aligned list of entries (None is padding) and logs them. If the
        allocator has none, nothing changes; if the log refuses them, the entries are as before and
        every sector of the allocation is invalidated. */
    method AllocList(ents: seq<Option<Key>>, secPerPlPg: nat, prov: Option<seq<nat>>) returns (ok: bool)
      requires Valid() && Unassigned(tr, used, ents) && 0 < secPerPlPg
      requires prov.Some? ==> |prov.value| == |ents| && Fresh(owner, prov.value)
      modifies this`tr, this`invalid, this`log, this`owner, this`held, this`faults, this`asked
      ensures Valid()
      ensures ok <==> |ents| % secPerPlPg == 0 && prov.Some? && faults == old(faults)
      ensures |ents| % secPerPlPg == 0 && prov.Some? ==> asked == old(asked) + 1 && ok == answers(old(asked))
      ensures ok ==> |ents| % secPerPlPg == 0 && prov.Some? && invalid == old(invalid)
                     && tr == FillRange(old(tr), ents, prov.value, 0, |ents|)
                     && held == old(held) + Wanted(ents, prov.value, |ents|)
                     && log == old(log) + Records(old(tr), ents, prov.value, |ents|)
      ensures !ok ==> tr == old(tr) && held == old(held) && log == old(log)
      ensures !ok ==> invalid == old(invalid) + if |ents| % secPerPlPg != 0 || prov.None? then {}
                                                else set n | 0 <= n < |ents| :: prov.value[n]
      ensures old(Redo()) ==> (Redo() <==> !ok || InOrder(old(tr), ents, |ents|))
    {
      hide QueueOk, PastOk, Sectors, Folded, Fill, FillRange, Wanted, Records, RedoBase, AgreeAll, InOrder;
      if |ents| % secPerPlPg != 0 || prov.None? {
        return false;
      }
      var recs := AssignAll(ents, prov.value);
      ok := LogAppend(recs);
      if !ok {
        ClearAll(ents, prov.value, old(tr));
        owner, held := old(owner), old(held);
        ScrapAll(prov.value);
      }
    }

    /** The allocation of a garbage collection transaction, whose sectors are not followed here. */
    method AllocGc(s: nat)
      requires Valid() && s in used && s < |tr| && tr[s].kind.Gc?
      modifies this`tr
      ensures Valid() && tr == old(tr)[s := old(tr)[s].(nalloc := |old(tr)[s].entries|)]
      ensures old(Redo()) ==> Redo()
    {
      hide QueueOk, PastOk, Sectors, Folded, RedoOk;
      if Redo() {
        RedoFlag(gl0, log, gl, tr, used, next, s, tr[s].(nalloc := |tr[s].entries|));
      }
      GcKeeps(Queue(tr, free, used, held), Past(done, aborted, next), s, |tr[s].entries|);
      tr := tr[s := tr[s].(nalloc := |tr[s].entries|)];
    }

    /** Garbage collection erases blocks of invalidated sectors, which become allocatable again. */
    method Reclaim(ps: set<nat>)
      requires Valid() && ps <= invalid
      modifies this`invalid, this`owner
      ensures Valid() && invalid == old(invalid) - ps && owner == old(owner) - ps
      ensures old(Redo()) ==> Redo()
    {
      hide QueueOk, PastOk, Sectors, Folded;
      RecycleKeeps(Book(), ps);
      invalid := invalid - ps;
      owner := owner - ps;
    }
  }

  /** One transaction of one entry; the fourth answer of map and log will be a failure. */
  method OneStarted() returns (m: Manager)
    ensures fresh(m) && m.Valid() && m.gl == [0] && m.done == [] && m.aborted == {} && m.asked == 0
    ensures m.used == [0] && m.owner == map[] && forall n :: m.answers(n) <==> n != 3
    ensures m.tr == [Tr(0, LbaNs, [Entry(0, 0)], 0, false, false)] && m.log == []
  {
    hide QueueOk, PastOk, Sectors, Folded, RedoOk;
    m := new Manager(1, [0], n => n != 3);
    assert m.owner == map[];
    var s := m.New([0], LbaNs);
    assert m.tr[0].entries == [Entry(0, 0)];
  }

  /** The entry gets its sector. */
  method OneAllocated() returns (m: Manager)
    ensures fresh(m) && m.Valid() && m.gl == [0] && m.done == [] && m.aborted == {} && m.asked == 1
    ensures m.used == [0] && m.tr == [Tr(0, LbaNs, [Entry(0, 7)], 1, false, false)] && m.log == [Write(0, 0, 7)]
    ensures StopsAtOnce([Tr(0, LbaNs, [Entry(0, 7)], 1, true, true)], [0], [0], m.answers, 1)
  {
    hide QueueOk, PastOk, Sectors, Folded, FillRange, Wanted, Records, StopsAtOnce;
    m := OneStarted();
    var ents := [Some(Key(0, 0))];
    OneFilled(m.tr, ents, [7]);
    var got := m.AllocList(ents, 1, Some([7]));
    assert m.tr[0].entries == [Entry(0, 7)];
    WillStop(Tr(0, LbaNs, [Entry(0, 7)], 1, true, true), m.answers);
  }

  /** Its commit record is written and its flush fails. */
  method OneRecorded() returns (m: Manager)
    ensures fresh(m) && m.Valid() && m.gl == [0] && m.done == [] && m.aborted == {}
    ensures m.used == [0] && m.tr == [Tr(0, LbaNs, [Entry(0, 7)], 1, true, true)] && m.log == [Write(0, 0, 7), CommitRec(0)]
  {
    hide QueueOk, PastOk, Sectors, Folded, Drained, StopsAtOnce, HeadWaits;
    m := OneAllocated();
    ghost var t := m.tr[0].(committed := true, flush := true);
    assert m.tr[0 := t] == [t];
    m.CommitStops();
  }

  /** It is then aborted: the log keeps the commit record of a transaction that never took effect, and
      recovery maps its logical block to the sector that the abort invalidated. */
  method RecordOfAborted() returns (m: Manager)
    ensures m.Valid() && m.gl == [0] && m.done == [] && m.aborted == {0} && 7 in m.invalid
    ensures m.log == [Write(0, 0, 7), CommitRec(0)] && Recover([0], m.log) == [7]
  {
    hide QueueOk, PastOk, Sectors, Folded, Drained, SetSectors;
    m := OneRecorded();
    ghost var b, tr1 := m.Shown(), m.tr;
    ghost var own := SetSectors(tr1[0]);
    assert Remove([0 as nat], 0) == [];
    m.Abort(0);
    DrainedNone(tr1, [], b.(invalid := b.invalid + own), m.Shown(), true);
    DrainedNone(tr1, [], b.(invalid := b.invalid + own), m.Shown(), false);
    SevenRecovered();
    SevenHeld(tr1[0]);
  }

  lemma SevenRecovered()
    ensures Recover([0], [Write(0, 0, 7), CommitRec(0)]) == [7]
  {
    var w := [Write(0, 0, 7)];
    AppendRec([0], [], w[0], 0);
    AppendRec([0], w, CommitRec(0), 0);
    assert [] + w == w && w + [CommitRec(0)] == [Write(0, 0, 7), CommitRec(0)];
    assert Pending(w, 0) == [Entry(0, 7)];
  }

  lemma SevenHeld(t: Tr)
    requires t == Tr(0, LbaNs, [Entry(0, 7)], 1, true, true)
    ensures 7 in SetSectors(t)
  {
    assert t.entries[0].ppa == 7;
  }

  lemma WillStop(t: Tr, answers: nat -> bool)
    requires t == Tr(0, LbaNs, [Entry(0, 7)], 1, true, true) && forall n :: answers(n) <==> n != 3
    ensures StopsAtOnce([t], [0], [0], answers, 1)
  {
  }

  lemma OneFilled(tr: seq<Tr>, ents: seq<Option<Key>>, ppas: seq<nat>)
    requires |ents| == |ppas| == 1 && ents[0].Some? && Names(tr, ents[0].value)
    ensures FillRange(tr, ents, ppas, 0, 1) == Fill(tr, ents[0].value, ppas[0])
    ensures var k := ents[0].value;
            Records(tr, ents, ppas, 1) == [Write(tr[k.slot].id, tr[k.slot].entries[k.i].lba, ppas[0])]
  {
    assert FillRange(tr, ents, ppas, 0, 0) == tr && Records(tr, ents, ppas, 0) == [];
  }
}
