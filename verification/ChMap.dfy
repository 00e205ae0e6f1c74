/** The per-channel mapping table (ftl/ox-app/block/oxb-ch-map.c): its pages go to flash where they
    changed, the tiny table remembers where each page is, and loading follows the tiny table. */
module ChMap {
  import opened Arithmetic
  import opened SeqTransfer

  /** Pages of a table of n entries. */
  function PageCount(n: nat, epg: nat): nat
    requires 0 < epg
  {
    n / epg + if n % epg != 0 then 1 else 0
  }

  /** Entries in page k: a full page, except that the last one holds the rest. */
  function InPage(n: nat, epg: nat, k: nat): nat
    requires 0 < epg
  {
    if k + 1 < PageCount(n, epg) then epg else if n % epg == 0 then epg else n % epg
  }

  lemma PageBounds(n: nat, epg: nat, k: nat)
    requires 0 < epg && k < PageCount(n, epg)
    ensures 0 < InPage(n, epg, k) <= epg
    ensures k * epg + InPage(n, epg, k) == Min(n, (k + 1) * epg)
  {
    DivMod(n, epg);
    assert (k + 1) * epg == k * epg + epg;
    if k + 1 < PageCount(n, epg) {
      MulMono(k + 1, n / epg, epg);
    } else if n % epg == 0 {
      assert (k + 1) * epg == n;
    } else {
      assert k == n / epg;
    }
  }

  lemma PagesCover(n: nat, epg: nat)
    requires 0 < epg
    ensures Min(n, PageCount(n, epg) * epg) == n
  {
    DivMod(n, epg);
    assert (n / epg + 1) * epg == n / epg * epg + epg;
  }

  /** Flash page `ppa` stands for page k of the table. */
  ghost predicate PageAgrees(pages: map<nat, Page>, l: Layout, ppa: nat, table: seq<Ent>, k: nat)
    requires l.Sound() && 0 < l.EntPerPg() && k < PageCount(|table|, l.EntPerPg())
  {
    PageBounds(|table|, l.EntPerPg(), k);
    var lo := k * l.EntPerPg();
    Has(pages, l, ppa, 1) && table[lo..lo + InPage(|table|, l.EntPerPg(), k)] <= Image(pages, l, ppa, 1)
  }

  datatype LoadResult = Loaded(table: seq<Ent>) | Reset

  class MapTable {
    const l: Layout
    const flash: Flash
    /** The live table and the immutable copy a flush reads. */
    var tbl: seq<Ent>
    var copy: seq<Ent>
    var tiny: seq<nat>
    var dirty: seq<bool>

    ghost predicate Shape()
      reads this
    {
      l.Sound() && 0 < l.EntPerPg() && |copy| == |tbl| &&
      |tiny| == |dirty| == PageCount(|tbl|, l.EntPerPg())
    }

    ghost predicate PageClean(table: seq<Ent>, k: nat)
      requires Shape() && |table| == |tbl| && k < |tiny|
      reads this, flash
    {
      tiny[k] != 0 && PageAgrees(flash.pages, l, tiny[k], table, k)
    }

    /** Every page that is not dirty is in flash as it is in the table. */
    ghost predicate Valid()
      reads this, flash
    {
      Shape() && forall k :: 0 <= k < |tiny| && !dirty[k] ==> PageClean(tbl, k)
    }

    /** oxb_ch_map_create: every entry names its LBA and no page, and every page is to be flushed. */
    constructor (l: Layout, flash: Flash, n: nat, nch: nat, chId: nat)
      requires l.Sound() && 0 < l.EntPerPg()
      ensures Valid() && fresh(this) && this.l == l && this.flash == flash && |tbl| == n
      ensures forall i :: 0 <= i < n ==> tbl[i] == Ent(i * nch + chId, 0)
      ensures forall k :: 0 <= k < |dirty| ==> dirty[k] && tiny[k] == 0
    {
      this.l, this.flash := l, flash;
      var blank := seq(n, i requires 0 <= i < n => Ent(i * nch + chId, 0));
      tbl, copy := blank, blank;
      var pages := PageCount(n, l.EntPerPg());
      tiny, dirty := seq(pages, _ => 0), seq(pages, _ => true);
    }

    /** An update of an entry marks its page (oxb_ch_map_get and oxb_ch_map_mark). */
    method Update(off: nat, ppa: nat) returns (ok: bool)
      requires Valid()
      modifies this`tbl, this`dirty
      ensures Valid() && ok == (off < |old(tbl)|)
      ensures tbl == if ok then old(tbl)[off := old(tbl)[off].(ppa := ppa)] else old(tbl)
      ensures forall k :: 0 <= k < |dirty| ==>
                dirty[k] == (old(dirty)[k] || (ok && k == off / l.EntPerPg()))
    {
      hide PageAgrees, PageCount;
      ok := off < |tbl|;
      if ok {
        ghost var was := tbl;
        var epg := l.EntPerPg();
        PageOf(|tbl|, epg, off);
        tbl := tbl[off := tbl[off].(ppa := ppa)];
        if !dirty[off / epg] {
          dirty := dirty[off / epg := true];
        }
        forall k | 0 <= k < |tiny| && !dirty[k] ensures PageClean(tbl, k) {
          assert PageClean(was, k);
          UpdateElsewhere(flash.pages, l, tiny[k], was, off, tbl[off], k);
        }
      }
    }

    /** The copy taken before a flush (ftl/ox-app/block/oxb-gl-map.c). */
    method TakeCopy()
      requires Valid()
      modifies this`copy
      ensures Valid() && copy == tbl
    {
      for i := 0 to |tbl|
        invariant |copy| == |tbl| && copy[..i] == tbl[..i]
        invariant Valid()
      {
        copy := copy[i := tbl[i]];
      }
    }

    /** oxb_ch_map_flush: each dirty page goes to a page of its own, fresh from the allocator (not
        zero, not in use by the table, no two alike); the tiny table is the checkpoint. */
    method Flush(spare: seq<nat>) returns (checkpoint: seq<nat>)
      requires Valid() && copy == tbl && |spare| == |tiny|
      requires forall k :: 0 <= k < |spare| ==> spare[k] != 0 && spare[k] !in tiny
      requires forall k, j :: 0 <= k < j < |spare| ==> spare[k] != spare[j]
      modifies this`tiny, this`dirty, flash
      ensures Valid() && checkpoint == tiny && |tiny| == |old(tiny)|
      ensures forall k :: 0 <= k < |tiny| ==> !dirty[k]
      ensures forall k :: 0 <= k < |tiny| ==> tiny[k] == if old(dirty)[k] then spare[k] else old(tiny)[k]
    {
      hide PageAgrees;
      for k := 0 to |tiny|
        invariant Shape() && |tiny| == |old(tiny)| && copy == tbl
        invariant forall j :: 0 <= j < k ==> !dirty[j]
        invariant forall j :: k <= j < |tiny| ==> dirty[j] == old(dirty)[j]
        invariant forall j :: 0 <= j < |tiny| ==> tiny[j] == if j < k && old(dirty)[j] then spare[j] else old(tiny)[j]
        invariant forall j :: 0 <= j < |tiny| && !dirty[j] ==> PageClean(tbl, j)
      {
        if dirty[k] {
          FlushPage(k, spare[k]);
        }
      }
      checkpoint := tiny;
    }

    /** One dirty page (oxb_ch_map_nvm_write and the update of the tiny table). */
    method FlushPage(k: nat, ppa: nat)
      requires Shape() && k < |tiny| && copy == tbl && ppa != 0 && ppa !in tiny && dirty[k]
      requires forall j :: 0 <= j < |tiny| && !dirty[j] ==> PageClean(tbl, j)
      modifies this`tiny, this`dirty, flash
      ensures Shape() && tiny == old(tiny)[k := ppa] && dirty == old(dirty)[k := false]
      ensures forall j :: 0 <= j < |tiny| && !dirty[j] ==> PageClean(tbl, j)
    {
      ghost var was := flash.pages;
      var epg := l.EntPerPg();
      PageBounds(|tbl|, epg, k);
      var left := if k < |tiny| - 1 then epg else if |tbl| % epg == 0 then epg else |tbl| % epg;
      var buf := seq(l.planes, _ => seq(l.epp, _ => Ent(0, 0)));
      var ents := copy[k * epg..k * epg + left];
      flash.Write(l, ppa, ents, 1, left, buf);
      tiny := tiny[k := ppa];
      dirty := dirty[k := false];
      assert ents[..left] == ents;
      forall j | 0 <= j < |tiny| && !dirty[j] ensures PageClean(tbl, j) {
        if j != k {
          assert old(tiny)[j] in old(tiny);
          assert PageAgrees(was, l, tiny[j], tbl, j);
          SamePage(was, flash.pages, l, tiny[j]);
        }
      }
    }

    /** oxb_ch_map_load with the tiny table of a checkpoint, into any table of the same length. */
    method Load(checkpoint: seq<nat>, into: seq<Ent>) returns (r: LoadResult)
      requires Shape() && |into| == |tbl| && |checkpoint| == |tiny|
      requires forall k :: 0 <= k < |checkpoint| && checkpoint[k] != 0 ==> Has(flash.pages, l, checkpoint[k], 1)
      ensures r.Reset? <==> 0 in checkpoint
      ensures r.Loaded? ==> |r.table| == |into|
      ensures r.Loaded? ==> forall k :: 0 <= k < |checkpoint| ==> PageAgrees(flash.pages, l, checkpoint[k], r.table, k)
    {
      var t, epg := into, l.EntPerPg();
      for k := 0 to |checkpoint|
        invariant |t| == |into| && forall j :: 0 <= j < k ==> checkpoint[j] != 0
        invariant forall j :: 0 <= j < k ==> PageAgrees(flash.pages, l, checkpoint[j], t, j)
      {
        if checkpoint[k] == 0 { return Reset; }
        t := LoadPage(checkpoint, t, k);
      }
      r := Loaded(t);
    }

    method LoadPage(checkpoint: seq<nat>, t: seq<Ent>, k: nat) returns (r: seq<Ent>)
      requires Shape() && |t| == |tbl| && k < |checkpoint| == |tiny| && Has(flash.pages, l, checkpoint[k], 1)
      requires forall j :: 0 <= j < k ==> PageAgrees(flash.pages, l, checkpoint[j], t, j)
      ensures |r| == |t| && forall j :: 0 <= j <= k ==> PageAgrees(flash.pages, l, checkpoint[j], r, j)
    {
      var epg := l.EntPerPg();
      PageBounds(|tbl|, epg, k);
      var left := if k < |checkpoint| - 1 then epg else if |tbl| % epg == 0 then epg else |tbl| % epg;
      var lo := k * epg;
      var page := flash.Read(l, checkpoint[k], t[lo..lo + left], 1, left);
      r := t[..lo] + page + t[lo + left..];
      assert page[..left] == page && r[lo..lo + left] == page && r[..lo] == t[..lo];
      assert PageAgrees(flash.pages, l, checkpoint[k], r, k);
      forall j | 0 <= j < k ensures PageAgrees(flash.pages, l, checkpoint[j], r, j) {
        assert PageAgrees(flash.pages, l, checkpoint[j], t, j);
        TailElsewhere(flash.pages, l, checkpoint[j], t, r, j, k);
      }
    }

    /** Flush, then load from the checkpoint: the table comes back exactly. */
    method FlushAndLoad(spare: seq<nat>, into: seq<Ent>) returns (r: LoadResult)
      requires Valid() && copy == tbl && |spare| == |tiny| && |into| == |tbl|
      requires forall k :: 0 <= k < |spare| ==> spare[k] != 0 && spare[k] !in tiny
      requires forall k, j :: 0 <= k < j < |spare| ==> spare[k] != spare[j]
      modifies this`tiny, this`dirty, flash
      ensures Valid() && r == Loaded(old(copy))
    {
      hide PageAgrees, PageCount;
      var cp := Flush(spare);
      forall k | 0 <= k < |tiny|
        ensures tiny[k] != 0 && PageAgrees(flash.pages, l, tiny[k], tbl, k) && Has(flash.pages, l, tiny[k], 1)
      {
        assert PageClean(tbl, k);
        AgreesHas(flash.pages, l, tiny[k], tbl, k);
      }
      r := Load(cp, into);
      SameTable(flash.pages, l, cp, tbl, r.table);
    }
  }

  lemma AgreesHas(pages: map<nat, Page>, l: Layout, ppa: nat, table: seq<Ent>, k: nat)
    requires l.Sound() && 0 < l.EntPerPg() && k < PageCount(|table|, l.EntPerPg()) && PageAgrees(pages, l, ppa, table, k)
    ensures Has(pages, l, ppa, 1)
  {
  }

  /** A change in another page leaves this one as it is. */
  lemma UpdateElsewhere(pages: map<nat, Page>, l: Layout, ppa: nat, table: seq<Ent>, off: nat, e: Ent, k: nat)
    requires l.Sound() && 0 < l.EntPerPg() && k < PageCount(|table|, l.EntPerPg()) && off < |table|
    requires PageAgrees(pages, l, ppa, table, k) && k != off / l.EntPerPg()
    ensures PageAgrees(pages, l, ppa, table[off := e], k)
  {
    var epg := l.EntPerPg();
    PageBounds(|table|, epg, k);
    OtherPage(epg, off, k);
    var lo, hi := k * epg, k * epg + InPage(|table|, epg, k);
    assert table[off := e][lo..hi] == table[lo..hi];
  }

  lemma TailElsewhere(pages: map<nat, Page>, l: Layout, ppa: nat, a: seq<Ent>, b: seq<Ent>, j: nat, k: nat)
    requires l.Sound() && 0 < l.EntPerPg() && j < k < PageCount(|a|, l.EntPerPg()) && |a| == |b|
    requires k * l.EntPerPg() <= |a| && a[..k * l.EntPerPg()] == b[..k * l.EntPerPg()]
    requires PageAgrees(pages, l, ppa, a, j)
    ensures PageAgrees(pages, l, ppa, b, j)
  {
    var epg := l.EntPerPg();
    PageBounds(|a|, epg, j);
    MulMono(j + 1, k, epg);
    var m, lo, hi := k * epg, j * epg, j * epg + InPage(|a|, epg, j);
    assert a[lo..hi] == a[..m][lo..hi] && b[lo..hi] == b[..m][lo..hi];
  }

  lemma PageOf(n: nat, epg: nat, off: nat)
    requires 0 < epg && off < n
    ensures off / epg < PageCount(n, epg)
  {
    DivMod(n, epg);
    DivMod(off, epg);
    if off / epg >= PageCount(n, epg) {
      MulMono(PageCount(n, epg), off / epg, epg);
      PagesCover(n, epg);
    }
  }

  lemma OtherPage(epg: nat, off: nat, k: nat)
    requires 0 < epg && k != off / epg
    ensures off < k * epg || (k + 1) * epg <= off
  {
    DivMod(off, epg);
    if k < off / epg {
      MulMono(k + 1, off / epg, epg);
    } else {
      MulMono(off / epg + 1, k, epg);
      assert (off / epg + 1) * epg == off / epg * epg + epg;
    }
  }

  lemma SamePage(was: map<nat, Page>, now: map<nat, Page>, l: Layout, ppa: nat)
    requires Has(was, l, ppa, 1) && ppa in now && now[ppa] == was[ppa]
    ensures Has(now, l, ppa, 1) && Image(now, l, ppa, 1) == Image(was, l, ppa, 1)
  {
    assert Image(now, l, ppa, 0) == Image(was, l, ppa, 0);
  }

  /** Two tables whose pages all agree with the same flash pages are the same. */
  lemma SameTable(pages: map<nat, Page>, l: Layout, tiny: seq<nat>, a: seq<Ent>, b: seq<Ent>)
    requires l.Sound() && 0 < l.EntPerPg() && |a| == |b| && |tiny| == PageCount(|a|, l.EntPerPg())
    requires forall k :: 0 <= k < |tiny| ==> PageAgrees(pages, l, tiny[k], a, k) && PageAgrees(pages, l, tiny[k], b, k)
    ensures a == b
  {
    var epg := l.EntPerPg();
    forall i | 0 <= i < |a| ensures a[i] == b[i] {
      PageOf(|a|, epg, i);
      var k := i / epg;
      DivMod(i, epg);
      PageBounds(|a|, epg, k);
      var lo, hi := k * epg, k * epg + InPage(|a|, epg, k);
      assert PageAgrees(pages, l, tiny[k], a, k) && PageAgrees(pages, l, tiny[k], b, k);
      assert (k + 1) * epg == lo + epg;
      assert a[i] == a[lo..hi][i - lo] && b[i] == b[lo..hi][i - lo];
    }
  }
}
