/** What the provisioner has done to the flash: the erases that succeeded and the pages handed
    out, in order, and what an ordered log says about every physical sector. */
module ProvisionLog {
  import opened Arithmetic
  import opened Sequences

  datatype Geometry = Geometry(luns: nat, blocks: nat, pages: nat, planes: nat, sectors: nat,
                               lineSize: nat)
  {
    ghost predicate Sound() {
      0 < luns && 0 < blocks && 0 < pages && 0 < planes && 0 < sectors && 0 < lineSize
    }
  }

  datatype Blk = Blk(lun: nat, blk: nat)
  datatype Ppa = Ppa(lun: nat, blk: nat, pg: nat, pl: nat, sec: nat)
  datatype Event = Erased(b: Blk) | Programmed(b: Blk, pg: nat)

  /** The sectors of one multi-plane page, plane by plane, in the order they are written. */
  function PagePpas(g: Geometry, b: Blk, pg: nat): (s: seq<Ppa>)
    requires 0 < g.sectors
  {
    seq(g.planes * g.sectors, i requires 0 <= i => Ppa(b.lun, b.blk, pg, i / g.sectors, i % g.sectors))
  }

  /** Every plane and sector of the page occurs exactly once in its sector list. */
  lemma PagePpasExact(g: Geometry, b: Blk, pg: nat)
    requires g.Sound()
    ensures NoDup(PagePpas(g, b, pg))
    ensures forall p: Ppa :: p in PagePpas(g, b, pg) <==>
                        p == Ppa(b.lun, b.blk, pg, p.pl, p.sec) && p.pl < g.planes && p.sec < g.sectors
  {
    var s, w := PagePpas(g, b, pg), g.sectors;
    forall i | 0 <= i < |s|
      ensures s[i].pl < g.planes && s[i].sec < w && i == s[i].pl * w + s[i].sec
    {
      QuotientBound(i, g.planes, w);
      DivMod(i, w);
    }
    forall p: Ppa | p == Ppa(b.lun, b.blk, pg, p.pl, p.sec) && p.pl < g.planes && p.sec < w
      ensures p in s
    {
      IndexBound(p.pl, g.planes, p.sec, w);
      DivModUnique(p.pl * w + p.sec, w, p.pl, p.sec);
      assert s[p.pl * w + p.sec] == p;
    }
  }

  /** The page of `b` that comes next: 0 after an erase, one more after each page handed out,
      and the recorded current page when the log says nothing. */
  ghost function NextPg(start: Blk -> nat, log: seq<Event>, b: Blk): nat {
    if log == [] then start(b)
    else match log[|log| - 1]
      case Erased(c) => if c == b then 0 else NextPg(start, log[..|log| - 1], b)
      case Programmed(c, pg) => if c == b then pg + 1 else NextPg(start, log[..|log| - 1], b)
  }

  /** Every page handed out was the next one of its block, and inside the block. */
  ghost predicate Ordered(pages: nat, start: Blk -> nat, log: seq<Event>) {
    log == [] ||
    var pre, e := log[..|log| - 1], log[|log| - 1];
    && Ordered(pages, start, pre)
    && (e.Programmed? ==> e.pg == NextPg(start, pre, e.b) && e.pg < pages)
  }

  lemma {:induction false} OrderedAppend(pages: nat, start: Blk -> nat, log: seq<Event>, e: Event)
    requires Ordered(pages, start, log)
    requires e.Programmed? ==> e.pg == NextPg(start, log, e.b) && e.pg < pages
    ensures Ordered(pages, start, log + [e])
    ensures forall b :: NextPg(start, log + [e], b) ==
                        if b != e.b then NextPg(start, log, b) else if e.Erased? then 0 else e.pg + 1
  {
    assert (log + [e])[..|log|] == log;
  }

  lemma {:induction false} OrderedAt(pages: nat, start: Blk -> nat, log: seq<Event>, i: nat)
    requires Ordered(pages, start, log) && i < |log| && log[i].Programmed?
    ensures log[i].pg == NextPg(start, log[..i], log[i].b) && log[i].pg < pages
    decreases |log|
  {
    if i < |log| - 1 {
      var pre := log[..|log| - 1];
      assert pre[..i] == log[..i];
      OrderedAt(pages, start, pre, i);
    }
  }

  ghost predicate NoErase(log: seq<Event>, b: Blk, i: nat, j: nat)
    requires i <= j <= |log|
  {
    forall k :: i <= k < j ==> log[k] != Erased(b)
  }

  /** The pages of `b` handed out by a stretch of the log. */
  ghost function PagesOf(log: seq<Event>, b: Blk): seq<nat> {
    if log == [] then []
    else
      var e := log[|log| - 1];
      PagesOf(log[..|log| - 1], b) + if e.Programmed? && e.b == b then [e.pg] else []
  }

  /** Between two erases the pages of a block come out consecutively, from the page recorded at
      the start of the stretch. */
  lemma {:induction false} PagesInOrder(pages: nat, start: Blk -> nat, log: seq<Event>, b: Blk, i: nat, j: nat)
    requires Ordered(pages, start, log) && i <= j <= |log| && NoErase(log, b, i, j)
    ensures var first := NextPg(start, log[..i], b);
            && NextPg(start, log[..j], b) == first + |PagesOf(log[i..j], b)|
            && PagesOf(log[i..j], b) == seq(|PagesOf(log[i..j], b)|, n requires 0 <= n => first + n)
    decreases j
  {
    if i < j {
      PagesInOrder(pages, start, log, b, i, j - 1);
      assert log[i..j][..j - 1 - i] == log[i..j - 1];
      assert log[..j][..j - 1] == log[..j - 1];
      assert log[i..j][j - 1 - i] == log[j - 1] == log[..j][j - 1];
      if log[j - 1].Programmed? {
        OrderedAt(pages, start, log, j - 1);
      }
    } else {
      assert log[i..j] == [];
    }
  }

  /** No sector is handed out twice without an erase of its block in between. */
  lemma {:induction false} NoSectorTwice(g: Geometry, start: Blk -> nat, log: seq<Event>, i: nat, j: nat, p: Ppa)
    requires g.Sound() && Ordered(g.pages, start, log)
    requires i < j < |log| && log[i].Programmed? && log[j].Programmed?
    requires p in PagePpas(g, log[i].b, log[i].pg) && p in PagePpas(g, log[j].b, log[j].pg)
    ensures exists k :: i < k < j && log[k] == Erased(Blk(p.lun, p.blk))
  {
    var b := log[i].b;
    PagePpasExact(g, b, log[i].pg);
    PagePpasExact(g, log[j].b, log[j].pg);
    if NoErase(log, b, i + 1, j) {
      PagesInOrder(g.pages, start, log, b, i + 1, j);
      assert log[..i + 1][..i] == log[..i];
      OrderedAt(g.pages, start, log, j);
      assert false;
    }
  }

  ghost predicate Gives(g: Geometry, e: Event, p: Ppa)
    requires 0 < g.sectors
  {
    e.Programmed? && p in PagePpas(g, e.b, e.pg)
  }

  /** Whenever the log hands out a sector twice, its block was erased in between. */
  ghost predicate ErasedBetween(g: Geometry, log: seq<Event>)
    requires 0 < g.sectors
  {
    forall i, j, p :: 0 <= i < j < |log| && Gives(g, log[i], p) && Gives(g, log[j], p) ==>
      exists k :: i < k < j && log[k] == Erased(Blk(p.lun, p.blk))
  }

  lemma OrderedErasesBetween(g: Geometry, start: Blk -> nat, log: seq<Event>)
    requires g.Sound() && Ordered(g.pages, start, log)
    ensures ErasedBetween(g, log)
  {
    forall i, j, p | 0 <= i < j < |log| && Gives(g, log[i], p) && Gives(g, log[j], p)
      ensures exists k :: i < k < j && log[k] == Erased(Blk(p.lun, p.blk))
    {
      NoSectorTwice(g, start, log, i, j, p);
    }
  }

  /** All sectors handed out by the log, in order. */
  ghost function Handed(g: Geometry, log: seq<Event>): seq<Ppa>
    requires 0 < g.sectors
  {
    if log == [] then []
    else
      var e := log[|log| - 1];
      Handed(g, log[..|log| - 1]) + if e.Programmed? then PagePpas(g, e.b, e.pg) else []
  }

  ghost predicate OnlyErases(log: seq<Event>, log': seq<Event>) {
    log <= log' && forall k :: |log| <= k < |log'| ==> log'[k].Erased?
  }

  lemma {:induction false} ErasesHandNothing(g: Geometry, log: seq<Event>, log': seq<Event>)
    requires 0 < g.sectors && OnlyErases(log, log')
    ensures Handed(g, log') == Handed(g, log)
    decreases |log'|
  {
    if |log| < |log'| {
      ErasesHandNothing(g, log, log'[..|log'| - 1]);
    } else {
      assert log == log';
    }
  }
}
