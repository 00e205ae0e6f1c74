/** Invalidation of sectors and pages in the block metadata (ftl/ox-app/block/oxb-blk-md.c), and the
    reset when a block is erased (ftl/ox-app/block/oxb-ch-prov.c). */
module BlkMd {
  import opened Arithmetic
  import opened SectorBits

  datatype Geo = Geo(blocks: nat, pages: nat, planes: nat, secPerPg: nat, entPerPg: nat)
  {
    ghost predicate Sound() { 0 < planes && 0 < secPerPg <= 8 && 0 < entPerPg }
    function Bytes(): nat { pages * planes }
  }

  /** One byte of sector bits per plane page, page by page. */
  datatype Entry = Entry(pgState: seq<bv8>, invalidSec: nat)

  /** Invalid sectors the bits stand for. */
  function Sum(s: seq<bv8>): nat {
    if s == [] then 0 else Sum(s[..|s| - 1]) + Pop(s[|s| - 1])
  }

  ghost predicate EntryOk(g: Geo, e: Entry) {
    |e.pgState| == g.Bytes() && g.secPerPg <= 8 &&
    forall i :: 0 <= i < |e.pgState| ==> Within(e.pgState[i], g.secPerPg)
  }

  /** The counter says how many bits are set. */
  ghost predicate Exact(e: Entry) { e.invalidSec == Sum(e.pgState) }

  lemma {:induction false} SumUpdate(s: seq<bv8>, i: nat, b: bv8)
    requires i < |s|
    ensures Sum(s[i := b]) == Sum(s) - Pop(s[i]) + Pop(b)
  {
    hide Pop, Within, AllSet, IsSet, WithBit, Mask;
    var n := |s| - 1;
    if i < n {
      assert s[i := b][..n] == s[..n][i := b];
      SumUpdate(s[..n], i, b);
    } else {
      assert s[i := b][..n] == s[..n];
    }
  }

  lemma {:induction false} SumBound(s: seq<bv8>, n: nat)
    requires n <= 8 && forall i :: 0 <= i < |s| ==> Within(s[i], n)
    ensures Sum(s) <= |s| * n
  {
    hide Pop, Within, AllSet, IsSet, WithBit, Mask;
    if s != [] {
      SumBound(s[..|s| - 1], n);
      PopBound(s[|s| - 1], n);
      assert |s| * n == (|s| - 1) * n + n;
    }
  }

  /** The counter of an exact entry never exceeds the sectors of the block. */
  lemma NeverTooMany(g: Geo, e: Entry)
    requires EntryOk(g, e) && Exact(e)
    ensures e.invalidSec <= g.pages * g.planes * g.secPerPg
  {
    hide Pop, Within, AllSet, IsSet, WithBit, Mask;
    SumBound(e.pgState, g.secPerPg);
  }

  lemma {:induction false} SumZero(s: seq<bv8>)
    requires forall i :: 0 <= i < |s| ==> s[i] == 0
    ensures Sum(s) == 0
  {
    if s != [] { SumZero(s[..|s| - 1]); }
  }

  // ----- One sector -----

  function AfterSector(g: Geo, e: Entry, at: nat, sec: nat): Entry
    requires at < |e.pgState| && sec < 8
  {
    if IsSet(e.pgState[at], sec) then e
    else Entry(e.pgState[at := WithBit(e.pgState[at], sec)], e.invalidSec + 1)
  }

  /** Invalidating a sector keeps the count exact, sets its bit and no other, and a repeat changes
      nothing. */
  lemma SectorExact(g: Geo, e: Entry, at: nat, sec: nat)
    requires EntryOk(g, e) && at < |e.pgState| && sec < g.secPerPg
    ensures var r := AfterSector(g, e, at, sec);
            && EntryOk(g, r) && (Exact(e) ==> Exact(r)) && AfterSector(g, r, at, sec) == r
            && (forall j :: 0 <= j < 8 ==> (IsSet(r.pgState[at], j) <==> IsSet(e.pgState[at], j) || j == sec))
            && (forall i :: 0 <= i < |e.pgState| && i != at ==> r.pgState[i] == e.pgState[i])
  {
    hide Pop, Within, AllSet, IsSet, WithBit, Mask;
    var b := e.pgState[at];
    if !IsSet(b, sec) {
      SetBit(b, sec, g.secPerPg);
      SumUpdate(e.pgState, at, WithBit(b, sec));
      forall j | 0 <= j < 8 ensures IsSet(WithBit(b, sec), j) <==> IsSet(b, j) || j == sec {
        WithBitSets(b, sec, j);
      }
    }
  }

  // ----- A whole page -----

  /** The first of `n` planes from `at` on that is wholly invalid already, or n. */
  function FirstSet(s: seq<bv8>, at: nat, n: nat, all: bv8): (k: nat)
    requires at + n <= |s|
    ensures k <= n
    ensures forall i :: at <= i < at + k ==> s[i] != all
    ensures k < n ==> s[at + k] == all
    decreases n
  {
    if n == 0 || s[at] == all then 0 else 1 + FirstSet(s, at + 1, n - 1, all)
  }

  /** The first k planes from `at` on become wholly invalid. */
  function Fill(s: seq<bv8>, at: nat, k: nat, all: bv8): (r: seq<bv8>)
    requires at + k <= |s|
    ensures |r| == |s|
  {
    seq(|s|, i requires 0 <= i < |s| => if at <= i < at + k then all else s[i])
  }

  function AfterPage(g: Geo, e: Entry, at: nat): Entry
    requires g.secPerPg <= 8 && at + g.planes <= |e.pgState|
  {
    var all := AllSet(g.secPerPg);
    var k := FirstSet(e.pgState, at, g.planes, all);
    Entry(Fill(e.pgState, at, k, all),
          if k == g.planes then e.invalidSec + g.planes * g.secPerPg else e.invalidSec)
  }

  /** Bits that filling k planes adds. */
  function Added(s: seq<bv8>, at: nat, k: nat, n: nat): nat
    requires at + k <= |s| && n <= 8 && forall i :: 0 <= i < |s| ==> Within(s[i], n)
  {
    if k == 0 then 0
    else
      PopBound(s[at + k - 1], n);
      Added(s, at, k - 1, n) + (n - Pop(s[at + k - 1]))
  }

  lemma {:induction false} FillSum(s: seq<bv8>, at: nat, k: nat, n: nat)
    requires at + k <= |s| && n <= 8 && forall i :: 0 <= i < |s| ==> Within(s[i], n)
    ensures Sum(Fill(s, at, k, AllSet(n))) == Sum(s) + Added(s, at, k, n)
  {
    hide Pop, Within, AllSet, IsSet, WithBit, Mask;
    var all := AllSet(n);
    if k == 0 {
      assert Fill(s, at, 0, all) == s;
    } else {
      FillSum(s, at, k - 1, n);
      var t := Fill(s, at, k - 1, all);
      assert Fill(s, at, k, all) == t[at + k - 1 := all];
      SumUpdate(t, at + k - 1, all);
      AllSetFacts(n);
      PopBound(s[at + k - 1], n);
    }
  }

  /** Filling adds at least one bit per plane that was not full, and all of them exactly when every
      plane was wholly valid. */
  lemma {:induction false} AddedBounds(s: seq<bv8>, at: nat, k: nat, n: nat)
    requires at + k <= |s| && 0 < n <= 8 && forall i :: 0 <= i < |s| ==> Within(s[i], n)
    requires forall i :: at <= i < at + k ==> s[i] != AllSet(n)
    ensures k <= Added(s, at, k, n) <= k * n
    ensures Added(s, at, k, n) == k * n <==> forall i :: at <= i < at + k ==> s[i] == 0
  {
    hide Pop, Within, AllSet, IsSet, WithBit, Mask;
    if k > 0 {
      AddedBounds(s, at, k - 1, n);
      PopBound(s[at + k - 1], n);
      assert k * n == (k - 1) * n + n;
    }
  }

  /** Whole-page invalidation keeps an exact count exact if and only if the page's first plane is
      wholly invalid already or all its planes are wholly valid. */
  lemma PageExactIff(g: Geo, e: Entry, at: nat)
    requires g.Sound() && EntryOk(g, e) && at + g.planes <= |e.pgState| && Exact(e)
    ensures Exact(AfterPage(g, e, at)) <==>
            e.pgState[at] == AllSet(g.secPerPg) || forall i :: at <= i < at + g.planes ==> e.pgState[i] == 0
  {
    hide Pop, Within, AllSet, IsSet, WithBit, Mask;
    var n, all := g.secPerPg, AllSet(g.secPerPg);
    var k := FirstSet(e.pgState, at, g.planes, all);
    FillSum(e.pgState, at, k, n);
    AddedBounds(e.pgState, at, k, n);
    AllSetFacts(n);
    if e.pgState[at] == all {
      assert k == 0;
    } else {
      assert 0 < k;
    }
  }

  /** In every case the bits stay inside the page's sectors and a repeat changes nothing. */
  lemma PageRepeat(g: Geo, e: Entry, at: nat)
    requires g.Sound() && EntryOk(g, e) && at + g.planes <= |e.pgState|
    ensures var r := AfterPage(g, e, at); EntryOk(g, r) && AfterPage(g, r, at) == r
  {
    hide Pop, Within, AllSet, IsSet, WithBit, Mask;
    var all := AllSet(g.secPerPg);
    var r := AfterPage(g, e, at);
    AllSetFacts(g.secPerPg);
    assert r.pgState[at] == all;
    assert FirstSet(r.pgState, at, g.planes, all) == 0;
    assert Fill(r.pgState, at, 0, all) == r.pgState;
  }

  /** One sector of plane 0 invalid, then the whole page: the count is one too high. */
  lemma PageExample()
    ensures var g := Geo(1, 1, 2, 4, 1); var e := Entry([1, 0], 1);
            Exact(e) && !Exact(AfterPage(g, e, 0))
  {
    hide Pop, Within, AllSet;
    var g, e := Geo(1, 1, 2, 4, 1), Entry([1, 0], 1);
    SumTwo(1, 0);
    SmallBytes();
    PageExactIff(g, e, 0);
  }

  lemma SumTwo(a: bv8, b: bv8)
    ensures Sum([a, b]) == Pop(a) + Pop(b)
  {
    hide Pop;
    assert [a, b][..1] == [a] && [a][..0] == [];
    assert Sum([a]) == Sum([]) + Pop(a);
  }

  /** The call goes through all planes, counts and marks the metadata page. */
  ghost predicate Marks(g: Geo, e: Entry, at: nat)
    requires g.secPerPg <= 8 && at + g.planes <= |e.pgState|
  {
    FirstSet(e.pgState, at, g.planes, AllSet(g.secPerPg)) == g.planes
  }

  /** Bits change without a mark if and only if the first plane is not wholly invalid and a later one
      is. */
  lemma PageUnmarkedIff(g: Geo, e: Entry, at: nat)
    requires g.Sound() && EntryOk(g, e) && at + g.planes <= |e.pgState|
    ensures AfterPage(g, e, at).pgState != e.pgState && !Marks(g, e, at) <==>
            e.pgState[at] != AllSet(g.secPerPg) &&
            exists i :: at < i < at + g.planes && e.pgState[i] == AllSet(g.secPerPg)
  {
    hide Pop, Within, AllSet, Mask;
    var s, all := e.pgState, AllSet(g.secPerPg);
    var k := FirstSet(s, at, g.planes, all);
    var r := AfterPage(g, e, at).pgState;
    if s[at] == all {
      assert k == 0 && r == s;
    } else {
      assert 0 < k && r[at] == all;
      if k < g.planes {
        assert s[at + k] == all;
      }
    }
  }

  /** Plane 1 wholly invalid, plane 0 wholly valid: plane 0 changes, is not counted and not marked. */
  lemma UnmarkedExample()
    ensures var g := Geo(1, 1, 2, 4, 1); var e := Entry([0, 15], 4);
            Exact(e) && !Exact(AfterPage(g, e, 0)) && AfterPage(g, e, 0).pgState != e.pgState && !Marks(g, e, 0)
  {
    hide Pop, Within, AllSet, Mask;
    var g, e := Geo(1, 1, 2, 4, 1), Entry([0, 15], 4);
    SmallBytes();
    SumTwo(0, 15);
    PageExactIff(g, e, 0);
    assert e.pgState[1] == 15;
    PageUnmarkedIff(g, e, 0);
  }

  // ----- Runs -----

  datatype Op = Sector(at: nat, sec: nat) | Page(at: nat) | Erase

  /** The operations since the block was last erased, whole-page ones only on pages that are wholly
      valid or wholly invalid. */
  ghost predicate Allowed(g: Geo, e: Entry, op: Op) {
    match op
    case Sector(at, sec) => at < |e.pgState| && sec < g.secPerPg
    case Page(at) => g.secPerPg <= 8 && at + g.planes <= |e.pgState| &&
      ((forall i :: at <= i < at + g.planes ==> e.pgState[i] == AllSet(g.secPerPg)) ||
       (forall i :: at <= i < at + g.planes ==> e.pgState[i] == 0))
    case Erase => true
  }

  ghost function Do(g: Geo, e: Entry, op: Op): Entry
    requires EntryOk(g, e) && Allowed(g, e, op)
  {
    match op
    case Sector(at, sec) => AfterSector(g, e, at, sec)
    case Page(at) => AfterPage(g, e, at)
    case Erase => Erased(g)
  }

  function Erased(g: Geo): Entry { Entry(seq(g.Bytes(), _ => 0), 0) }

  lemma ErasedExact(g: Geo)
    requires g.Sound()
    ensures EntryOk(g, Erased(g)) && Exact(Erased(g))
  {
    SumZero(Erased(g).pgState);
    NoneSet(g.secPerPg);
  }

  lemma DoExact(g: Geo, e: Entry, op: Op)
    requires g.Sound() && EntryOk(g, e) && Exact(e) && Allowed(g, e, op)
    ensures EntryOk(g, Do(g, e, op)) && Exact(Do(g, e, op))
  {
    hide Pop, Within, AllSet, IsSet, WithBit, Mask;
    match op
    case Sector(at, sec) => SectorExact(g, e, at, sec);
    case Page(at) =>
      PageExactIff(g, e, at);
      PageRepeat(g, e, at);
    case Erase => ErasedExact(g);
  }

  /** A run: every operation is allowed where it is applied. */
  ghost predicate Run(g: Geo, e: Entry, ops: seq<Op>, r: Entry)
    decreases |ops|
  {
    if ops == [] then r == e
    else EntryOk(g, e) && Allowed(g, e, ops[0]) && Run(g, Do(g, e, ops[0]), ops[1..], r)
  }

  /** Over every such run the count is the number of invalid sectors, and within the block. */
  lemma {:induction false} RunExact(g: Geo, e: Entry, ops: seq<Op>, r: Entry)
    requires g.Sound() && EntryOk(g, e) && Exact(e) && Run(g, e, ops, r)
    ensures EntryOk(g, r) && Exact(r) && r.invalidSec <= g.pages * g.planes * g.secPerPg
    decreases |ops|
  {
    hide Pop, Within, AllSet, IsSet, WithBit, Mask;
    if ops == [] {
      NeverTooMany(g, e);
    } else {
      DoExact(g, e, ops[0]);
      RunExact(g, Do(g, e, ops[0]), ops[1..], r);
    }
  }

  // ----- Sectors by their address -----

  ghost predicate InBlock(g: Geo, pg: nat, pl: nat, sec: nat) {
    pg < g.pages && pl < g.planes && sec < g.secPerPg
  }

  /** The metadata says that the sector is invalid. */
  ghost predicate SectorInvalid(g: Geo, e: Entry, pg: nat, pl: nat, sec: nat) {
    At(g, pg, pl) < |e.pgState| && sec < 8 && IsSet(e.pgState[At(g, pg, pl)], sec)
  }

  /** Different plane pages have different bytes. */
  lemma AtApart(g: Geo, pg: nat, pl: nat, pg': nat, pl': nat)
    requires pl < g.planes && pl' < g.planes && At(g, pg, pl) == At(g, pg', pl')
    ensures pg == pg' && pl == pl'
  {
    DivModUnique(At(g, pg, pl), g.planes, pg, pl);
    DivModUnique(At(g, pg, pl), g.planes, pg', pl');
  }

  /** Invalidating a sector invalidates that sector and no other. */
  lemma OnlyThatSector(g: Geo, e: Entry, pg: nat, pl: nat, sec: nat)
    requires g.Sound() && EntryOk(g, e) && InBlock(g, pg, pl, sec)
    ensures At(g, pg, pl) < |e.pgState|
    ensures forall pg': nat, pl': nat, sec': nat :: InBlock(g, pg', pl', sec') ==>
              (SectorInvalid(g, AfterSector(g, e, At(g, pg, pl), sec), pg', pl', sec')
               <==> SectorInvalid(g, e, pg', pl', sec') || (pg', pl', sec') == (pg, pl, sec))
  {
    IndexBound(pg, g.pages, pl, g.planes);
    var at := At(g, pg, pl);
    var r := AfterSector(g, e, at, sec);
    SectorExact(g, e, at, sec);
    hide IsSet, WithBit, Mask, Within, AfterSector, Pop;
    forall pg': nat, pl': nat, sec': nat | InBlock(g, pg', pl', sec')
      ensures SectorInvalid(g, r, pg', pl', sec') <==> SectorInvalid(g, e, pg', pl', sec') || (pg', pl', sec') == (pg, pl, sec)
    {
      if At(g, pg', pl') == at {
        AtApart(g, pg, pl, pg', pl');
      }
    }
  }

  /** A whole-page invalidation invalidates the sectors of the planes of that page up to the first
      wholly invalid one, and no other. */
  lemma OnlyThatPage(g: Geo, e: Entry, pg: nat)
    requires g.Sound() && EntryOk(g, e) && pg < g.pages
    ensures At(g, pg, 0) + g.planes <= |e.pgState|
    ensures var k := FirstSet(e.pgState, At(g, pg, 0), g.planes, AllSet(g.secPerPg));
            forall pg': nat, pl': nat, sec': nat :: InBlock(g, pg', pl', sec') ==>
              (SectorInvalid(g, AfterPage(g, e, At(g, pg, 0)), pg', pl', sec')
               <==> SectorInvalid(g, e, pg', pl', sec') || (pg' == pg && pl' < k))
  {
    PageRoom(g, pg);
    hide IsSet, WithBit, Mask, Within, AllSet, Pop;
    var at, all := At(g, pg, 0), AllSet(g.secPerPg);
    var k := FirstSet(e.pgState, at, g.planes, all);
    var r := AfterPage(g, e, at);
    forall pg': nat, pl': nat, sec': nat | InBlock(g, pg', pl', sec')
      ensures SectorInvalid(g, r, pg', pl', sec') <==> SectorInvalid(g, e, pg', pl', sec') || (pg' == pg && pl' < k)
    {
      var i := At(g, pg', pl');
      IndexBound(pg', g.pages, pl', g.planes);
      if at <= i < at + k {
        AtApart(g, pg, i - at, pg', pl');
        AllSetSets(g.secPerPg, sec');
      }
    }
  }

  // ----- The table -----

  /** The plane loop of a whole-page invalidation: it stops at a plane that is wholly invalid. */
  method FillPlanes(state: seq<bv8>, at: nat, n: nat, all: bv8) returns (s: seq<bv8>, k: nat)
    requires at + n <= |state|
    ensures k == FirstSet(state, at, n, all) && s == Fill(state, at, k, all)
  {
    s, k := state, 0;
    while k < n
      invariant k <= FirstSet(state, at, n, all) && s == Fill(state, at, k, all)
    {
      if s[at + k] == all {
        return;
      }
      s := s[at + k := all];
      k := k + 1;
    }
  }

  class BlockTable {
    const g: Geo
    var tbl: seq<Entry>
    var dirty: seq<bool>

    ghost predicate Valid()
      reads this
    {
      g.Sound() && |tbl| == g.blocks && (forall b :: 0 <= b < |tbl| ==> EntryOk(g, tbl[b])) &&
      forall b :: 0 <= b < |tbl| ==> b / g.entPerPg < |dirty|
    }

    /** oxb_blk_md_create: no sector is invalid and everything is to be flushed. */
    constructor (g: Geo, mdPages: nat)
      requires g.Sound() && forall b :: 0 <= b < g.blocks ==> b / g.entPerPg < mdPages
      ensures Valid() && this.g == g && |dirty| == mdPages
      ensures forall b :: 0 <= b < |tbl| ==> Exact(tbl[b])
      ensures forall k :: 0 <= k < |dirty| ==> dirty[k]
    {
      this.g := g;
      ErasedExact(g);
      tbl, dirty := seq(g.blocks, _ => Erased(g)), seq(mdPages, _ => true);
    }

    /** oxb_blk_md_mark. */
    method Mark(index: nat)
      requires index < |dirty|
      modifies this`dirty
      ensures dirty == old(dirty)[index := true]
    {
      if !dirty[index] {
        dirty := dirty[index := true];
      }
    }

    /** oxb_blk_md_invalidate for one sector; an effective change leaves the metadata page dirty. */
    method InvalidateSector(b: nat, pg: nat, pl: nat, sec: nat)
      requires Valid() && b < g.blocks && pg < g.pages && pl < g.planes && sec < g.secPerPg
      modifies this
      ensures Valid() && At(g, pg, pl) < |old(tbl)[b].pgState|
      ensures tbl == old(tbl)[b := AfterSector(g, old(tbl)[b], At(g, pg, pl), sec)]
      ensures forall pg': nat, pl': nat, sec': nat :: InBlock(g, pg', pl', sec') ==>
                (SectorInvalid(g, tbl[b], pg', pl', sec')
                 <==> SectorInvalid(g, old(tbl)[b], pg', pl', sec') || (pg', pl', sec') == (pg, pl, sec))
      ensures dirty == if tbl == old(tbl) then old(dirty) else old(dirty)[b / g.entPerPg := true]
    {
      hide Pop, Within, AllSet, IsSet, WithBit, Mask, SectorInvalid;
      OnlyThatSector(g, tbl[b], pg, pl, sec);
      var at := At(g, pg, pl);
      var e := tbl[b];
      SectorExact(g, e, at, sec);
      if IsSet(e.pgState[at], sec) {
        return;
      }
      var r := Entry(e.pgState[at := WithBit(e.pgState[at], sec)], e.invalidSec + 1);
      assert r.invalidSec != e.invalidSec;
      tbl := tbl[b := r];
      assert tbl[b] != old(tbl)[b];
      Mark(b / g.entPerPg);
    }

    /** The same with `full`: the loop over the planes gives up at the first one that is wholly invalid
        already, and then neither counts nor marks what it changed before. */
    method InvalidatePage(b: nat, pg: nat)
      requires Valid() && b < g.blocks && pg < g.pages
      modifies this
      ensures Valid() && At(g, pg, 0) + g.planes <= |old(tbl)[b].pgState|
      ensures tbl == old(tbl)[b := AfterPage(g, old(tbl)[b], At(g, pg, 0))]
      ensures var k := FirstSet(old(tbl)[b].pgState, At(g, pg, 0), g.planes, AllSet(g.secPerPg));
              forall pg': nat, pl': nat, sec': nat :: InBlock(g, pg', pl', sec') ==>
                (SectorInvalid(g, tbl[b], pg', pl', sec')
                 <==> SectorInvalid(g, old(tbl)[b], pg', pl', sec') || (pg' == pg && pl' < k))
      ensures dirty == if Marks(g, old(tbl)[b], At(g, pg, 0)) then old(dirty)[b / g.entPerPg := true] else old(dirty)
    {
      hide Pop, Within, AllSet, IsSet, WithBit, Mask, SectorInvalid;
      OnlyThatPage(g, tbl[b], pg);
      var at := At(g, pg, 0);
      var e := tbl[b];
      PageRepeat(g, e, at);
      var s, k := FillPlanes(e.pgState, at, g.planes, AllSet(g.secPerPg));
      if k < g.planes {
        tbl := tbl[b := e.(pgState := s)];
        return;
      }
      tbl := tbl[b := Entry(s, e.invalidSec + g.planes * g.secPerPg)];
      Mark(b / g.entPerPg);
    }

    /** What ch_prov_blk_get does to the metadata of a block it has erased. */
    method Reset(b: nat)
      requires Valid() && b < g.blocks
      modifies this
      ensures Valid() && tbl == old(tbl)[b := Erased(g)] && Exact(tbl[b])
      ensures dirty == old(dirty)[b / g.entPerPg := true]
    {
      Mark(b / g.entPerPg);
      ErasedExact(g);
      tbl := tbl[b := Erased(g)];
    }
  }

  function At(g: Geo, pg: nat, pl: nat): nat { pg * g.planes + pl }

  lemma PageRoom(g: Geo, pg: nat)
    requires pg < g.pages
    ensures At(g, pg, 0) + g.planes <= g.Bytes()
  {
    MulMono(pg + 1, g.pages, g.planes);
  }
}
