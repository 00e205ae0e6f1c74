/** One LUN of the channel provisioner (ftl/ox-app/block/oxb-ch-prov.c): its block lists,
    its counters and the metadata of its blocks, as one record. */
module ProvisionLun {
  import opened Sequences

  const USER: nat := 0
  const COLD: nat := 1
  const META: nat := 2
  const LINES: nat := 3

  /** The part of struct app_blk_md_entry that provisioning reads and writes. */
  datatype BlkMd = BlkMd(used: bool, open: bool, line: bool, avlb: bool, cold: bool, meta: bool,
                         currentPg: nat)

  /** struct ch_prov_lun; blocks are named by their number in the LUN. `bad` holds the blocks
      the bad block table excludes, and `retired` those of them that were recorded as used when
      the lists were built. */
  datatype Lun = Lun(free: seq<nat>, used: seq<nat>, open: seq<seq<nat>>, waiting: seq<nat>,
                     nfree: nat, nused: nat, nopen: seq<nat>, md: seq<BlkMd>, bad: set<nat>,
                     retired: set<nat>)

  ghost predicate Counted(l: Lun) {
    && |l.open| == |l.nopen| == LINES
    && l.nfree == |l.free| && l.nused == |l.used|
    && (forall t :: 0 <= t < LINES ==> l.nopen[t] == |l.open[t]|)
  }

  /** Each of the first `n` blocks is bad, free or used, and only one of the three. */
  ghost predicate Partition(n: nat, l: Lun)
    requires n <= |l.md|
  {
    && NoDup(l.free) && NoDup(l.used)
    && (forall b :: b in l.free ==> b < n && b !in l.used && b !in l.bad && !l.md[b].used)
    && (forall b :: b in l.used ==> b < n && b !in l.bad)
    && (forall b :: b in l.bad ==> b < n && (l.md[b].used ==> b in l.retired))
    && (forall b :: 0 <= b < n && b !in l.bad ==> b in l.free || b in l.used)
  }

  /** The open lists are pairwise disjoint, hold used blocks only, and every open block still
      has an unwritten page. */
  ghost predicate OpenLists(pages: nat, n: nat, l: Lun)
    requires |l.open| == LINES && n <= |l.md|
  {
    && (forall t :: 0 <= t < LINES ==> NoDup(l.open[t]))
    && (forall t, b {:trigger b in l.open[t]} :: 0 <= t < LINES && b in l.open[t] ==>
          b in l.used && b < n && l.md[b].used && l.md[b].open && l.md[b].currentPg < pages)
    && (forall t, u, b :: 0 <= t < u < LINES && b in l.open[t] ==> b !in l.open[u])
  }

  /** Blocks put but not yet released by a checkpoint are used, closed and have USED cleared;
      every other used block has USED set. */
  ghost predicate Waiting(n: nat, l: Lun)
    requires n <= |l.md|
  {
    && NoDup(l.waiting)
    && (forall b :: b in l.waiting ==> b in l.used && b < n && !l.md[b].used && !l.md[b].open)
    && (forall b :: b in l.used && b < n && b !in l.waiting ==> l.md[b].used)
  }

  ghost predicate LunInv(pages: nat, n: nat, l: Lun) {
    && n <= |l.md|
    && Counted(l)
    && Partition(n, l)
    && OpenLists(pages, n, l)
    && Waiting(n, l)
  }

  // ----- The elementary updates -----

  /** The first `k` free blocks failed to erase: they leave every list and become bad. */
  ghost function FailErase(l: Lun, k: nat): Lun
    requires k <= |l.free| == l.nfree
  {
    l.(free := l.free[k..], nfree := l.nfree - k, bad := l.bad + (set b | b in l.free[..k]))
  }

  ghost function FreshMd(m: BlkMd): BlkMd {
    m.(used := true, open := true, line := false, meta := false, cold := false, currentPg := 0)
  }

  /** The first free block was erased: it moves to the used list and to the open list of `t`. */
  ghost function OpenFirst(l: Lun, t: nat): Lun
    requires 0 < |l.free| == l.nfree && t < |l.open| == |l.nopen| && l.free[0] < |l.md|
  {
    var b := l.free[0];
    l.(free := l.free[1..], used := l.used + [b], open := l.open[t := [b] + l.open[t]],
       nfree := l.nfree - 1, nused := l.nused + 1, nopen := l.nopen[t := l.nopen[t] + 1],
       md := l.md[b := FreshMd(l.md[b])])
  }

  /** A block joins the line of type `t`. */
  function MarkLine(l: Lun, b: nat, t: nat): Lun
    requires b < |l.md|
  {
    var m := l.md[b].(line := true);
    var m' := if t == META then m.(meta := true) else if t == COLD then m.(cold := true) else m;
    l.(md := l.md[b := m'])
  }

  /** A block leaves the open list of `t`, with `pg` as its next page. */
  ghost function Close(l: Lun, b: nat, t: nat, pg: nat): Lun
    requires b < |l.md| && t < |l.open| == |l.nopen| && 0 < l.nopen[t]
  {
    l.(open := l.open[t := Remove(l.open[t], b)], nopen := l.nopen[t := l.nopen[t] - 1],
       md := l.md[b := l.md[b].(line := false, open := false, currentPg := pg)])
  }

  /** One page of an open block is taken; the block closes with its last page. */
  ghost function TakePage(pages: nat, l: Lun, b: nat, t: nat): Lun
    requires b < |l.md| && t < |l.open| == |l.nopen| && 0 < l.nopen[t]
  {
    var pg := l.md[b].currentPg + 1;
    if pg == pages then Close(l, b, t, pg) else l.(md := l.md[b := l.md[b].(currentPg := pg)])
  }

  /** A closed block is put: it waits for the next checkpoint. */
  ghost function PutWait(l: Lun, b: nat): Lun
    requires b < |l.md|
  {
    l.(md := l.md[b := l.md[b].(used := false)], waiting := [b] + l.waiting)
  }

  /** The checkpoint returns the first waiting block to the free list. */
  ghost function Release(l: Lun): Lun
    requires l.waiting != [] && l.waiting[0] < |l.md| && 0 < l.nused
  {
    var b := l.waiting[0];
    l.(waiting := l.waiting[1..], used := Remove(l.used, b), free := l.free + [b],
       nfree := l.nfree + 1, nused := l.nused - 1,
       md := l.md[b := l.md[b].(used := false, line := false, meta := false, cold := false)])
  }

  // ----- Each update keeps the invariant -----

  lemma OpenAt(pages: nat, n: nat, l: Lun, t: nat, b: nat)
    requires n <= |l.md| && |l.open| == LINES && OpenLists(pages, n, l) && t < LINES && b in l.open[t]
    ensures b in l.used && b < n && l.md[b].used && l.md[b].open && l.md[b].currentPg < pages
  {
  }

  lemma FailEraseInv(pages: nat, n: nat, l: Lun, k: nat)
    requires LunInv(pages, n, l) && k <= |l.free|
    ensures LunInv(pages, n, FailErase(l, k))
  {
    var l' := FailErase(l, k);
    assert l.free == l.free[..k] + l.free[k..];
    assert forall b :: b in l.free <==> b in l.free[..k] || b in l'.free;
    forall b | b in l'.free ensures b !in l.free[..k] {
      var i :| 0 <= i < |l'.free| && l'.free[i] == b;
      assert l.free[k + i] == b;
    }
    assert OpenLists(pages, n, l') && Waiting(n, l');
  }

  lemma FailTwice(l: Lun, j: nat, k: nat)
    requires j + k <= |l.free| == l.nfree
    ensures FailErase(FailErase(l, j), k) == FailErase(l, j + k)
  {
    assert l.free[j..][k..] == l.free[j + k..];
    assert l.free[..j + k] == l.free[..j] + l.free[j..][..k];
  }

  lemma OpenFirstInv(pages: nat, n: nat, l: Lun, t: nat)
    requires LunInv(pages, n, l) && 0 < pages && t < LINES && l.free != [] && l.free[0] < n
    ensures LunInv(pages, n, OpenFirst(l, t))
  {
    hide Partition, OpenLists, Waiting;
    OpenFirstPartition(n, l, t);
    OpenFirstOpen(pages, n, l, t);
    OpenFirstWaiting(n, l, t);
  }

  lemma OpenFirstPartition(n: nat, l: Lun, t: nat)
    requires n <= |l.md| && Counted(l) && Partition(n, l) && t < LINES && l.free != [] && l.free[0] < n
    ensures Partition(n, OpenFirst(l, t))
  {
    PopFacts(l.free);
    NoDupAppend(l.used, l.free[0]);
  }

  lemma OpenFirstOpen(pages: nat, n: nat, l: Lun, t: nat)
    requires n <= |l.md| && Counted(l) && Partition(n, l) && OpenLists(pages, n, l)
    requires 0 < pages && t < LINES && l.free != [] && l.free[0] < n
    ensures OpenLists(pages, n, OpenFirst(l, t))
  {
    var b, l' := l.free[0], OpenFirst(l, t);
    assert b in l.free;
    assert forall u :: 0 <= u < LINES ==> b !in l.open[u];
    NoDupAppend(l.open[t], b);
    assert forall u, c :: 0 <= u < LINES ==> (c in l'.open[u] <==> c in l.open[u] || (u == t && c == b));
    assert forall c :: c in l.used ==> c in l'.used;
  }

  lemma OpenFirstWaiting(n: nat, l: Lun, t: nat)
    requires n <= |l.md| && Counted(l) && Partition(n, l) && Waiting(n, l) && t < LINES && l.free != [] && l.free[0] < n
    ensures Waiting(n, OpenFirst(l, t))
  {
    assert l.free[0] in l.free;
  }

  lemma MarkLineInv(pages: nat, n: nat, l: Lun, b: nat, t: nat)
    requires LunInv(pages, n, l) && b < n
    ensures LunInv(pages, n, MarkLine(l, b, t))
  {
    var l' := MarkLine(l, b, t);
    assert OpenLists(pages, n, l') && Waiting(n, l');
  }

  lemma CloseInv(pages: nat, n: nat, l: Lun, b: nat, t: nat, pg: nat)
    requires LunInv(pages, n, l) && t < LINES && b < n && b in l.open[t]
    ensures LunInv(pages, n, Close(l, b, t, pg))
    ensures forall u :: 0 <= u < LINES ==> b !in Close(l, b, t, pg).open[u]
  {
    var l' := Close(l, b, t, pg);
    RemoveFacts(l.open[t], b);
    assert forall u, c :: 0 <= u < LINES && c in l'.open[u] ==> c in l.open[u] && c != b;
    assert OpenLists(pages, n, l') && Waiting(n, l');
  }

  lemma TakePageInv(pages: nat, n: nat, l: Lun, b: nat, t: nat)
    requires LunInv(pages, n, l) && t < LINES && b < n && b in l.open[t]
    ensures LunInv(pages, n, TakePage(pages, l, b, t))
  {
    assert l.md[b].currentPg < pages;
    if l.md[b].currentPg + 1 == pages {
      hide LunInv;
      CloseInv(pages, n, l, b, t, pages);
    } else {
      SetPageInv(pages, n, l, b, l.md[b].currentPg + 1);
    }
  }

  /** A block's next page may be any page of the block. */
  lemma SetPageInv(pages: nat, n: nat, l: Lun, b: nat, pg: nat)
    requires LunInv(pages, n, l) && b < n && pg < pages
    ensures LunInv(pages, n, l.(md := l.md[b := l.md[b].(currentPg := pg)]))
  {
    var l' := l.(md := l.md[b := l.md[b].(currentPg := pg)]);
    assert forall c :: 0 <= c < |l.md| ==> l'.md[c].used == l.md[c].used && l'.md[c].open == l.md[c].open;
    assert Partition(n, l') by { hide OpenLists, Waiting; }
    SetPageOpen(pages, n, l, b, pg);
    assert Waiting(n, l') by { hide Partition, OpenLists; }
  }

  lemma SetPageOpen(pages: nat, n: nat, l: Lun, b: nat, pg: nat)
    requires n <= |l.md| && |l.open| == LINES && OpenLists(pages, n, l) && b < n && pg < pages
    ensures OpenLists(pages, n, l.(md := l.md[b := l.md[b].(currentPg := pg)]))
  {
    var l' := l.(md := l.md[b := l.md[b].(currentPg := pg)]);
    forall t: nat, c: nat | t < LINES && c in l'.open[t]
      ensures c in l'.used && c < n && l'.md[c].used && l'.md[c].open && l'.md[c].currentPg < pages
    {
      OpenAt(pages, n, l, t, c);
    }
  }

  lemma PutWaitInv(pages: nat, n: nat, l: Lun, b: nat)
    requires LunInv(pages, n, l) && b in l.used && l.md[b].used && !l.md[b].open
    ensures LunInv(pages, n, PutWait(l, b))
  {
    var l' := PutWait(l, b);
    assert b !in l.waiting;
    assert forall t :: 0 <= t < LINES ==> b !in l.open[t];
    assert forall c :: c in l'.waiting <==> c == b || c in l.waiting;
    assert OpenLists(pages, n, l') && Waiting(n, l');
  }

  lemma ReleaseInv(pages: nat, n: nat, l: Lun)
    requires LunInv(pages, n, l) && l.waiting != [] && l.waiting[0] < n && 0 < l.nused
    ensures LunInv(pages, n, Release(l))
  {
    hide Partition, OpenLists, Waiting;
    ReleasePartition(n, l);
    ReleaseOpen(pages, n, l);
  }

  lemma ReleasePartition(n: nat, l: Lun)
    requires n <= |l.md| && Counted(l) && Partition(n, l) && Waiting(n, l)
    requires l.waiting != [] && l.waiting[0] < n && 0 < l.nused
    ensures Partition(n, Release(l)) && Waiting(n, Release(l)) && Counted(Release(l))
  {
    var b := l.waiting[0];
    PopFacts(l.waiting);
    assert b in l.used && b !in l.free;
    RemoveFacts(l.used, b);
    NoDupAppend(l.free, b);
  }

  lemma ReleaseOpen(pages: nat, n: nat, l: Lun)
    requires n <= |l.md| && Counted(l) && Partition(n, l) && OpenLists(pages, n, l) && Waiting(n, l)
    requires l.waiting != [] && l.waiting[0] < n && 0 < l.nused
    ensures OpenLists(pages, n, Release(l))
  {
    var b := l.waiting[0];
    assert b in l.waiting;
    RemoveFacts(l.used, b);
    assert b in l.waiting && !l.md[b].open;
    var l' := Release(l);
    forall t: nat, c: nat | t < LINES && c in l.open[t]
      ensures c in l'.used && c < n && l'.md[c].used && l'.md[c].open && l'.md[c].currentPg < pages
    {
      OpenAt(pages, n, l, t, c);
    }
  }

  // ----- Building the lists from the persisted metadata -----

  function LineTypeOf(m: BlkMd): (t: nat) {
    if m.meta then META else if m.cold then COLD else USER
  }

  /** Block `b` enters the lists: bad blocks nowhere, used blocks at the head of the used list
      (and of their open list), the others at any place `pos` of the free list. */
  ghost function Admit(l: Lun, b: nat, isBad: bool, pos: nat): Lun
    requires b < |l.md| && pos <= |l.free| && |l.open| == |l.nopen| == LINES
  {
    var m := l.md[b].(avlb := !isBad);
    var l := l.(md := l.md[b := m]);
    if isBad then l.(bad := l.bad + {b}, retired := if m.used then l.retired + {b} else l.retired)
    else if m.used then
      var l := l.(used := [b] + l.used, nused := l.nused + 1);
      if !m.open then l
      else
        var t := LineTypeOf(m);
        l.(open := l.open[t := [b] + l.open[t]], nopen := l.nopen[t := l.nopen[t] + 1])
    else l.(free := l.free[..pos] + [b] + l.free[pos..], nfree := l.nfree + 1)
  }

  lemma InsertFacts(s: seq<nat>, pos: nat, x: nat)
    requires pos <= |s| && NoDup(s) && x !in s
    ensures var r := s[..pos] + [x] + s[pos..];
            NoDup(r) && forall y :: y in r <==> y == x || y in s
  {
    var r := s[..pos] + [x] + s[pos..];
    assert s == s[..pos] + s[pos..];
    forall i, j | 0 <= i < j < |r| ensures r[i] != r[j] {
      assert i != pos ==> r[i] == s[if i < pos then i else i - 1];
      assert j != pos ==> r[j] == s[if j < pos then j else j - 1];
    }
  }

  /** A block that enters no list. */
  lemma AdmitBad(pages: nat, n: nat, l: Lun, pos: nat)
    requires LunInv(pages, n, l) && n < |l.md| && pos <= |l.free| && l.waiting == []
    ensures LunInv(pages, n + 1, Admit(l, n, true, pos))
  {
    var l' := Admit(l, n, true, pos);
    assert Partition(n + 1, l') && OpenLists(pages, n + 1, l');
  }

  /** A block that enters the free list. */
  lemma AdmitFree(pages: nat, n: nat, l: Lun, pos: nat)
    requires LunInv(pages, n, l) && n < |l.md| && pos <= |l.free| && l.waiting == [] && !l.md[n].used
    ensures LunInv(pages, n + 1, Admit(l, n, false, pos))
  {
    var l' := Admit(l, n, false, pos);
    InsertFacts(l.free, pos, n);
    assert Partition(n + 1, l') && OpenLists(pages, n + 1, l');
  }

  /** A block that enters the used list, and its open list when it was open. */
  lemma AdmitUsed(pages: nat, n: nat, l: Lun, pos: nat)
    requires LunInv(pages, n, l) && n < |l.md| && pos <= |l.free| && l.waiting == [] && l.md[n].used
    requires l.md[n].open ==> l.md[n].currentPg < pages
    ensures LunInv(pages, n + 1, Admit(l, n, false, pos))
  {
    var l' := Admit(l, n, false, pos);
    NoDupAppend(l.used, n);
    assert Partition(n + 1, l') by { hide OpenLists, Waiting; }
    AdmitOpen(pages, n, l, pos);
    assert Waiting(n + 1, l') by { hide OpenLists, Partition; }
    assert Counted(l') by { hide OpenLists, Partition, Waiting; }
  }

  lemma AdmitOpen(pages: nat, n: nat, l: Lun, pos: nat)
    requires n < |l.md| && Counted(l) && OpenLists(pages, n, l) && pos <= |l.free| && l.md[n].used
    requires l.md[n].open ==> l.md[n].currentPg < pages
    ensures OpenLists(pages, n + 1, Admit(l, n, false, pos))
  {
    var l' := Admit(l, n, false, pos);
    assert forall t :: 0 <= t < LINES ==> n !in l.open[t];
    assert forall c :: c in l.used ==> c in l'.used;
    assert n in l'.used;
    if l.md[n].open {
      var u := LineTypeOf(l.md[n]);
      NoDupAppend(l.open[u], n);
      assert forall t, c :: 0 <= t < LINES ==> (c in l'.open[t] <==> c in l.open[t] || (t == u && c == n));
    }
    forall t: nat, c: nat | t < LINES && c in l'.open[t]
      ensures c in l'.used && c < n + 1 && l'.md[c].used && l'.md[c].open && l'.md[c].currentPg < pages
    {
      if c != n {
        OpenAt(pages, n, l, t, c);
      }
    }
  }

  lemma AdmitInv(pages: nat, n: nat, l: Lun, isBad: bool, pos: nat)
    requires LunInv(pages, n, l) && n < |l.md| && pos <= |l.free| && l.waiting == []
    requires !isBad && l.md[n].used && l.md[n].open ==> l.md[n].currentPg < pages
    ensures LunInv(pages, n + 1, Admit(l, n, isBad, pos))
    ensures var l' := Admit(l, n, isBad, pos);
            && l'.md == l.md[n := l.md[n].(avlb := !isBad)] && l'.waiting == []
            && l'.bad == (if isBad then l.bad + {n} else l.bad)
            && l'.retired == (if isBad && l.md[n].used then l.retired + {n} else l.retired)
  {
    hide LunInv;
    if isBad {
      AdmitBad(pages, n, l, pos);
    } else if l.md[n].used {
      AdmitUsed(pages, n, l, pos);
    } else {
      AdmitFree(pages, n, l, pos);
    }
  }

  // ----- The line type of an open block -----

  /** The flags name the type: META before COLD before USER. */
  ghost predicate OfType(m: BlkMd, t: nat) {
    (t == META <==> m.meta) && (t == COLD <==> !m.meta && m.cold)
  }

  ghost predicate InSome(l: Lun, b: nat)
    requires |l.open| == LINES
  {
    b in l.open[USER] || b in l.open[COLD] || b in l.open[META]
  }

  /** Every used block with OPEN set is in an open list, and every block of an open list has the flags
      of its type. As the lists are disjoint, the flags say in which one it is. */
  ghost predicate Typed(l: Lun) {
    && |l.open| == LINES
    && (forall t, b {:trigger b in l.open[t]} :: 0 <= t < LINES && b in l.open[t] ==> b < |l.md| && OfType(l.md[b], t))
    && (forall b :: b in l.used && b < |l.md| && l.md[b].used && l.md[b].open ==> InSome(l, b))
  }

  lemma FailEraseTyped(l: Lun, k: nat)
    requires Typed(l) && k <= |l.free| == l.nfree
    ensures Typed(FailErase(l, k))
  {
    var l' := FailErase(l, k);
    assert forall b :: InSome(l, b) ==> InSome(l', b);
  }

  /** A new block gets its flags when it joins the line it was opened for. */
  lemma OpenMarkTyped(pages: nat, n: nat, l: Lun, t: nat)
    requires LunInv(pages, n, l) && |l.md| == n && Typed(l) && t < LINES && l.free != [] && l.free[0] < n
    ensures Typed(MarkLine(OpenFirst(l, t), l.free[0], t))
  {
    var b := l.free[0];
    var l' := MarkLine(OpenFirst(l, t), b, t);
    assert b in l.free;
    assert l'.open[t] == [b] + l.open[t];
    forall u: nat, c: nat | u < LINES && c in l'.open[u] ensures c < |l'.md| && OfType(l'.md[c], u) {
      if c in l.open[u] {
        OpenAt(pages, n, l, u, c);
      }
    }
    forall c | c in l'.used && c < |l'.md| && l'.md[c].used && l'.md[c].open ensures InSome(l', c) {
      if c == b {
        assert b in l'.open[t];
      } else {
        assert c in l.used && InSome(l, c);
      }
    }
  }

  /** Marking a block of a list changes none of the flags that name the type. */
  lemma MarkTyped(l: Lun, b: nat, t: nat)
    requires Typed(l) && t < LINES && b < |l.md| && b in l.open[t]
    ensures Typed(MarkLine(l, b, t))
  {
    var l' := MarkLine(l, b, t);
    assert OfType(l.md[b], t);
    assert l'.md[b].meta == l.md[b].meta && l'.md[b].cold == l.md[b].cold;
    assert forall c :: InSome(l, c) ==> InSome(l', c);
    forall u: nat, c: nat | u < LINES && c in l'.open[u] ensures c < |l'.md| && OfType(l'.md[c], u) {
      assert c in l.open[u];
    }
  }

  lemma CloseTyped(pages: nat, n: nat, l: Lun, b: nat, t: nat, pg: nat)
    requires LunInv(pages, n, l) && Typed(l) && t < LINES && b < n && b in l.open[t]
    ensures Typed(Close(l, b, t, pg))
  {
    var l' := Close(l, b, t, pg);
    RemoveFacts(l.open[t], b);
    forall u: nat, c: nat | u < LINES && c in l'.open[u] ensures c < |l'.md| && OfType(l'.md[c], u) {
      assert c in l.open[u];
    }
    forall c | c in l'.used && c < |l'.md| && l'.md[c].used && l'.md[c].open ensures InSome(l', c) {
      assert c != b && InSome(l, c);
    }
  }

  lemma SetPageTyped(l: Lun, b: nat, pg: nat)
    requires Typed(l) && b < |l.md|
    ensures Typed(l.(md := l.md[b := l.md[b].(currentPg := pg)]))
  {
    var l' := l.(md := l.md[b := l.md[b].(currentPg := pg)]);
    assert forall c :: InSome(l, c) ==> InSome(l', c);
    forall u: nat, c: nat | u < LINES && c in l'.open[u] ensures c < |l'.md| && OfType(l'.md[c], u) {
      assert c in l.open[u];
    }
  }

  lemma TakePageTyped(pages: nat, n: nat, l: Lun, b: nat, t: nat)
    requires LunInv(pages, n, l) && Typed(l) && t < LINES && b < n && b in l.open[t]
    ensures Typed(TakePage(pages, l, b, t))
  {
    if l.md[b].currentPg + 1 == pages {
      CloseTyped(pages, n, l, b, t, pages);
    } else {
      SetPageTyped(l, b, l.md[b].currentPg + 1);
    }
  }

  lemma PutWaitTyped(l: Lun, b: nat)
    requires Typed(l) && b < |l.md|
    ensures Typed(PutWait(l, b))
  {
    var l' := PutWait(l, b);
    assert forall c :: InSome(l, c) ==> InSome(l', c);
    forall u: nat, c: nat | u < LINES && c in l'.open[u] ensures c < |l'.md| && OfType(l'.md[c], u) {
      assert c in l.open[u];
    }
  }

  lemma ReleaseTyped(pages: nat, n: nat, l: Lun)
    requires LunInv(pages, n, l) && Typed(l) && l.waiting != [] && l.waiting[0] < n && 0 < l.nused
    ensures Typed(Release(l))
  {
    var b, l' := l.waiting[0], Release(l);
    assert b in l.waiting;
    RemoveFacts(l.used, b);
    forall u: nat, c: nat | u < LINES && c in l'.open[u] ensures c < |l'.md| && OfType(l'.md[c], u) {
      OpenAt(pages, n, l, u, c);
      assert c != b;
    }
    forall c | c in l'.used && c < |l'.md| && l'.md[c].used && l'.md[c].open ensures InSome(l', c) {
      assert InSome(l, c);
    }
  }

  lemma AdmitTyped(pages: nat, n: nat, l: Lun, isBad: bool, pos: nat)
    requires LunInv(pages, n, l) && Typed(l) && n < |l.md| && pos <= |l.free|
    ensures Typed(Admit(l, n, isBad, pos))
  {
    var l' := Admit(l, n, isBad, pos);
    forall u: nat, c: nat | u < LINES && c in l'.open[u] ensures c < |l'.md| && OfType(l'.md[c], u) {
      if c in l.open[u] {
        OpenAt(pages, n, l, u, c);
      }
    }
    forall c | c in l'.used && c < |l'.md| && l'.md[c].used && l'.md[c].open ensures InSome(l', c) {
      if c in l.used {
        assert InSome(l, c);
        assert forall u :: 0 <= u < LINES ==> forall x :: x in l.open[u] ==> x in l'.open[u];
      } else {
        assert c == n && n in l'.open[LineTypeOf(l'.md[n])];
      }
    }
  }

  /** Building the lists anew from the metadata of a running LUN, with its bad blocks: every open block
      is back in the open list it was in, and the blocks that waited for a checkpoint are free. */
  lemma SameListsAgain(pages: nat, n: nat, l: Lun, l': Lun)
    requires LunInv(pages, n, l) && Typed(l) && |l.md| == n
    requires LunInv(pages, n, l') && Typed(l') && |l'.md| == n && l'.waiting == [] && l'.bad == l.bad
    requires forall b :: 0 <= b < n ==> l'.md[b] == l.md[b].(avlb := l'.md[b].avlb)
    ensures forall t: nat, b: nat :: t < LINES ==> (b in l'.open[t] <==> b in l.open[t])
    ensures forall b: nat :: b in l'.used <==> b in l.used && b !in l.waiting
    ensures forall b: nat :: b in l'.free <==> b in l.free || b in l.waiting
  {
    forall b: nat
      ensures b in l'.used <==> b in l.used && b !in l.waiting
      ensures b in l'.free <==> b in l.free || b in l.waiting
    {
      if b < n && b !in l.bad {
        assert b in l'.free || b in l'.used;
        assert b in l.free || b in l.used;
      }
    }
    forall t: nat, b: nat | t < LINES ensures b in l'.open[t] <==> b in l.open[t] {
      if b in l.open[t] {
        OpenBack(pages, n, l, l', t, b);
      }
      if b in l'.open[t] {
        OpenBack(pages, n, l', l, t, b);
      }
    }
  }

  lemma OpenBack(pages: nat, n: nat, l: Lun, l': Lun, t: nat, b: nat)
    requires LunInv(pages, n, l) && Typed(l) && LunInv(pages, n, l') && Typed(l') && |l.md| == n == |l'.md|
    requires t < LINES && b in l.open[t] && l'.bad == l.bad
    requires forall c :: 0 <= c < n ==> l'.md[c] == l.md[c].(avlb := l'.md[c].avlb)
    ensures b in l'.open[t]
  {
    OpenAt(pages, n, l, t, b);
    assert b !in l.bad && b < n && l'.md[b].used;
    assert b in l'.used;
    assert InSome(l', b) && OfType(l.md[b], t);
  }
}
