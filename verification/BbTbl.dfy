/** The bad block table of a channel (ftl/ox-app/block/oxb-bbtbl.c): every flush appends a page to one
    reserved block, and loading takes the last page that carries the magic. */
module BbTbl {
  /** A page as a read shows it: whether its out-of-band area has the magic, and the table bytes. */
  datatype Page = Page(magic: bool, tbl: seq<nat>)

  const BLANK := Page(false, [])

  /** Where a scan stops: the first page without the magic. */
  ghost function Used(pages: seq<Page>): (k: nat)
    ensures k <= |pages|
    ensures forall i :: 0 <= i < k ==> pages[i].magic
    ensures k < |pages| ==> !pages[k].magic
  {
    if pages == [] || !pages[0].magic then 0 else 1 + Used(pages[1..])
  }

  lemma UsedIs(pages: seq<Page>, k: nat)
    requires k <= |pages| && (forall i :: 0 <= i < k ==> pages[i].magic) && (k < |pages| ==> !pages[k].magic)
    ensures Used(pages) == k
  {
  }

  /** The pages with the magic come first. */
  ghost predicate MagicFirst(pages: seq<Page>) {
    forall i :: Used(pages) <= i < |pages| ==> !pages[i].magic
  }

  /** The table of the last page with the magic, among all pages. */
  ghost predicate Newest(pages: seq<Page>, tbl: seq<nat>) {
    exists i :: 0 <= i < |pages| && pages[i] == Page(true, tbl) && forall j :: i < j < |pages| ==> !pages[j].magic
  }

  lemma UsedBlank(n: nat)
    ensures Used(seq(n, _ => BLANK)) == 0 && MagicFirst(seq(n, _ => BLANK))
  {
  }

  /** Writing any page where the scan stops keeps the magic pages in front. */
  lemma WriteKeeps(pages: seq<Page>, p: Page)
    requires MagicFirst(pages) && Used(pages) < |pages|
    ensures MagicFirst(pages[Used(pages) := p])
    ensures p.magic ==> Used(pages[Used(pages) := p]) == Used(pages) + 1 && Newest(pages[Used(pages) := p], p.tbl)
  {
    var k := Used(pages);
    var q := pages[k := p];
    UsedIs(q, if p.magic then k + 1 else k);
    if p.magic {
      assert q[k] == Page(true, p.tbl);
    }
  }

  /** How the flash answers one flush: the erase of a full block, the write, and the erase and the
      write after a failed write; a failed write leaves `junk` in its page. */
  datatype Answers = Answers(eraseFull: bool, write: bool, eraseAgain: bool, rewrite: bool, junk: Page, junk2: Page)

  datatype LoadResult = Found(tbl: seq<nat>) | New | Failed

  class ReservedBlock {
    const pgSz: nat
    var pages: seq<Page>

    ghost predicate Valid()
      reads this
    {
      0 < |pages| && MagicFirst(pages)
    }

    constructor (n: nat, pgSz: nat)
      requires 0 < n
      ensures Valid() && |pages| == n && this.pgSz == pgSz && Used(pages) == 0
    {
      this.pgSz := pgSz;
      UsedBlank(n);
      pages := seq(n, _ => BLANK);
    }

    /** Page after page, until one has no magic or the block ends. */
    method Scan() returns (pg: nat)
      requires 0 < |pages|
      ensures pg == Used(pages)
    {
      pg := 0;
      while pg < |pages| && pages[pg].magic
        invariant pg <= |pages| && forall i :: 0 <= i < pg ==> pages[i].magic
      {
        pg := pg + 1;
      }
      UsedIs(pages, pg);
    }

    /** An erase either works or leaves the block as it was. */
    method EraseBlk(ok: bool)
      requires Valid()
      modifies this
      ensures Valid() && |pages| == |old(pages)|
      ensures if ok then Used(pages) == 0 else pages == old(pages)
    {
      if ok {
        UsedBlank(|pages|);
        pages := seq(|pages|, _ => BLANK);
      }
    }

    /** A page write either works or leaves anything in that page. */
    method WritePage(pg: nat, p: Page, ok: bool, junk: Page)
      requires Valid() && pg == Used(pages) < |pages| && p.magic
      modifies this
      ensures Valid() && |pages| == |old(pages)|
      ensures ok ==> Newest(pages, p.tbl) && pages == old(pages)[pg := p]
    {
      WriteKeeps(pages, p);
      WriteKeeps(pages, junk);
      pages := pages[pg := if ok then p else junk];
    }

    /** oxb_bbt_byte_flush when reads succeed. Success means that the table is now the newest, except
        when the block was full and could not be erased: oxb_bbt_byte_flush returns 0 there too,
        although nothing was written. */
    method Flush(tbl: seq<nat>, a: Answers) returns (ok: bool)
      requires Valid()
      modifies this
      ensures Valid() && |pages| == |old(pages)|
      ensures |tbl| > pgSz ==> !ok && pages == old(pages)
      ensures |tbl| <= pgSz && Stuck(old(pages), a) ==> ok && pages == old(pages)
      ensures |tbl| <= pgSz && !Stuck(old(pages), a) ==> (ok <==> a.write || (a.eraseAgain && a.rewrite))
      ensures ok && !Stuck(old(pages), a) ==> Newest(pages, tbl)
    {
      if |tbl| > pgSz { return false; }
      var pg := Scan();
      if pg == |pages| {
        EraseBlk(a.eraseFull);
        if !a.eraseFull { return true; }
        pg := 0;
      }
      WritePage(pg, Page(true, tbl), a.write, a.junk);
      ok := a.write;
      if !ok {
        EraseBlk(a.eraseAgain);
        if !a.eraseAgain { return; }
        WritePage(0, Page(true, tbl), a.rewrite, a.junk2);
        ok := a.rewrite;
      }
    }

    /** oxb_bbt_byte_load when reads succeed: the newest table, or a block to start anew. It works on
        a block with any contents. */
    method Load(bbSz: nat, erased: bool) returns (r: LoadResult)
      requires 0 < |pages|
      modifies this
      ensures |pages| == |old(pages)| && (old(Valid()) ==> Valid())
      ensures bbSz > pgSz ==> r == Failed && pages == old(pages)
      ensures bbSz <= pgSz && Used(old(pages)) > 0 ==>
                r == Found(old(pages)[Used(old(pages)) - 1].tbl) && pages == old(pages)
      ensures bbSz <= pgSz && Used(old(pages)) == 0 ==> r == if erased then New else Failed
      ensures r == New ==> Valid() && Used(pages) == 0
      ensures forall tbl :: bbSz <= pgSz && old(Valid()) && Newest(old(pages), tbl) ==> r == Found(tbl)
    {
      if bbSz > pgSz { return Failed; }
      var pg := 0;
      var tbl := [];
      while pg < |pages| && pages[pg].magic
        invariant pg <= |pages| && (forall i :: 0 <= i < pg ==> pages[i].magic) && pages == old(pages)
        invariant pg > 0 ==> tbl == pages[pg - 1].tbl
      {
        tbl := pages[pg].tbl;
        pg := pg + 1;
      }
      UsedIs(pages, pg);
      NewestIsLast(pages);
      if pg == 0 {
        if !erased { return Failed; }
        UsedBlank(|pages|);
        pages := seq(|pages|, _ => BLANK);
        return New;
      }
      return Found(tbl);
    }

    /** Any number of flushes, then a load: if every flush was successful and no full block failed to
        erase, the table loaded is the last one flushed. */
    method FlushAllThenLoad(tables: seq<seq<nat>>, answers: seq<Answers>) returns (ok: bool, r: LoadResult)
      requires Valid() && tables != [] && |answers| == |tables|
      requires forall i :: 0 <= i < |tables| ==> |tables[i]| <= pgSz && answers[i].eraseFull
      modifies this
      ensures Valid()
      ensures ok <==> forall i :: 0 <= i < |tables| ==>
                answers[i].write || (answers[i].eraseAgain && answers[i].rewrite)
      ensures ok ==> r == Found(tables[|tables| - 1])
    {
      for i := 0 to |tables|
        invariant Valid() && (i > 0 ==> Newest(pages, tables[i - 1]))
        invariant forall j :: 0 <= j < i ==> answers[j].write || (answers[j].eraseAgain && answers[j].rewrite)
      {
        ok := Flush(tables[i], answers[i]);
        if !ok { return false, Failed; }
      }
      r := Load(|tables[|tables| - 1]|, true);
      ok := true;
    }
  }

  /** A block of one page holds table [1]; its erase fails, and the flush of table [2] reports success. */
  method LostFlushExample() returns (b: ReservedBlock, ok: bool)
    ensures b.Valid() && ok && Newest(b.pages, [1]) && !Newest(b.pages, [2])
  {
    b := new ReservedBlock(1, 8);
    var good := Answers(true, true, true, true, BLANK, BLANK);
    ok := b.Flush([1], good);
    NewestIsLast(b.pages);
    assert b.pages[0].magic;
    ok := b.Flush([2], good.(eraseFull := false));
  }

  /** The block is full and its erase fails. */
  ghost predicate Stuck(pages: seq<Page>, a: Answers) {
    Used(pages) == |pages| && !a.eraseFull
  }

  /** With the magic pages in front, the newest table is in the last one the scan passes. */
  lemma NewestIsLast(pages: seq<Page>)
    ensures MagicFirst(pages) ==> forall tbl :: Newest(pages, tbl) ==>
              Used(pages) > 0 && pages[Used(pages) - 1].tbl == tbl
  {
    if MagicFirst(pages) {
      forall tbl | Newest(pages, tbl) ensures Used(pages) > 0 && pages[Used(pages) - 1].tbl == tbl {
        var i :| 0 <= i < |pages| && pages[i] == Page(true, tbl) && forall j :: i < j < |pages| ==> !pages[j].magic;
        UsedIs(pages, i + 1);
      }
    }
  }
}
