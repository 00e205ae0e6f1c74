/** The file-backed media manager (mmgr/file-be/file-be.c): page reads and writes, plane-block
    erases and the reload at start-up, over one data file and one metadata file per LUN. */
module FileBe {
  import opened Bytes
  import opened FileLayout
  import opened FileStore

  type Key = (nat, nat)

  datatype Addr = Addr(ch: nat, lun: nat, b: nat, pl: nat, pg: nat)

  /** The operations a user of the device sees succeed. */
  datatype StoreOp = Write(a: Addr, buf: seq<byte>) | Erase(a: Addr)

  ghost predicate SamePlane(a: Addr, c: Addr) {
    a.ch == c.ch && a.lun == c.lun && a.b == c.b && a.pl == c.pl
  }

  /** The plain page store: the last write of the page since the last erase of its plane block. */
  ghost function Last(h: seq<StoreOp>, a: Addr, size: nat): seq<byte> {
    if h == [] then Zeros(size)
    else
      match h[|h| - 1]
      case Write(c, buf) => if c == a then buf else Last(h[..|h| - 1], a, size)
      case Erase(c) => if SamePlane(c, a) then Zeros(size) else Last(h[..|h| - 1], a, size)
  }

  /** Counting the blocks that have an extent, by their plane 0. */
  method CountMapped(g: Geo, blk: seq<Blk>, ghost md: seq<nat>) returns (count: nat)
    requires 0 < g.planes && Mapped(g, blk, md)
    ensures count == Count(md)
  {
    count := 0;
    for i := 0 to g.blocks
      invariant count == Count(md[..i])
    {
      assert BlkOk(g, blk, md, i, 0);
      AtInside(g, i, 0);
      assert md[..i + 1][..i] == md[..i];
      if blk[At(g, i, 0)].fileId != 0 {
        count := count + 1;
      }
    }
    assert md[..g.blocks] == md;
  }

  /** Every plane of block `b` gets the new id and its byte offset. */
  method AssignPlanes(g: Geo, blk: seq<Blk>, b: nat, id: nat, off: nat) returns (r: seq<Blk>)
    requires |blk| == g.blocks * g.planes && b < g.blocks
    ensures r == Remap(g, blk, b, g.planes, id, off)
  {
    r := blk;
    for pl := 0 to g.planes
      invariant r == Remap(g, blk, b, pl, id, off)
    {
      AtInside(g, b, pl);
      var i := At(g, b, pl);
      r := r[i := r[i].(fileId := id, offset := off)];
    }
  }

  /** The block table read back from the metadata file (fbe_disk_md_load); the offset of an unmapped
      block comes from 0 - 1 on 32 bits and is never used. */
  method LoadTable(g: Geo, blk: seq<Blk>, md: seq<nat>) returns (r: seq<Blk>, count: nat)
    requires |blk| == g.blocks * g.planes && |md| == g.blocks
    ensures Mapped(g, r, md) && count == Count(md)
  {
    r, count := blk, 0;
    for b := 0 to g.blocks
      invariant |r| == |blk| && count == Count(md[..b])
      invariant forall c, pl :: 0 <= c < b && 0 <= pl < g.planes ==> BlkOk(g, r, md, c, pl)
    {
      assert md[..b + 1][..b] == md[..b];
      if md[b] != 0 {
        count := count + 1;
      }
      var off := (if md[b] == 0 then 0xFFFF_FFFF else md[b] - 1) * g.Extent();
      ghost var was := r;
      r := AssignPlanes(g, r, b, md[b], off);
      forall c, pl | 0 <= c < b + 1 && 0 <= pl < g.planes ensures BlkOk(g, r, md, c, pl) {
        assert c < b ==> BlkOk(g, was, md, c, pl);
        AtInside(g, c, pl);
        AtBlock(g, b, c, pl);
      }
    }
    assert md[..g.blocks] == md;
  }

  /** fbe_disk_md_load on whatever a stop left behind: the block table follows the metadata file, and
      the data file is cut to the recorded extents. */
  method LoadDisk(g: Geo, d: Disk, life: nat) returns (l: Lun)
    requires g.Sound() && |d.md| == g.blocks
    ensures l.disk == Reload(g, d) && Mapped(g, l.blk, d.md)
    ensures DiskInv(g, Reload(g, d)) ==> LunInv(g, l)
  {
    hide Ids, Count;
    var blank := seq(g.blocks * g.planes, _ => Blk(0, 0, life));
    var blk, count := LoadTable(g, blank, d.md);
    var size := g.Extent() * count;
    assert size == count * g.Extent();
    l := Lun(blk, d.(file := if count == 0 then [] else Resize(d.file, size)));
  }

  class Device {
    const g: Geo
    const chans: nat
    const lunsPerCh: nat
    var luns: map<Key, Lun>
    /** The file operations performed so far, in order. */
    ghost var trace: seq<FileOp>
    /** The successful writes and erases so far, in order. */
    ghost var history: seq<StoreOp>

    ghost predicate Has(a: Addr) {
      a.ch < chans && a.lun < lunsPerCh && InGeo(g, a.b, a.pl, a.pg)
    }

    ghost predicate Shape()
      reads this
    {
      (forall ch, lun :: 0 <= ch < chans && 0 <= lun < lunsPerCh ==> (ch, lun) in luns) &&
      forall k :: k in luns ==> LunInv(g, luns[k])
    }

    ghost function Stored(a: Addr): seq<byte>
      requires Shape() && Has(a)
      reads this
    {
      Page(g, luns[(a.ch, a.lun)].disk, a.b, a.pl, a.pg)
    }

    /** Every page holds what the plain store holds. */
    ghost predicate Valid()
      reads this
    {
      Shape() && forall a :: Has(a) ==> Stored(a) == Last(history, a, g.pgSize)
    }

    /** A fresh disk (fbe_disk_md_create for every LUN). */
    constructor (g: Geo, chans: nat, lunsPerCh: nat, life: nat)
      requires g.Sound()
      ensures Valid() && history == [] && trace == []
      ensures this.g == g && this.chans == chans && this.lunsPerCh == lunsPerCh
    {
      this.g, this.chans, this.lunsPerCh := g, chans, lunsPerCh;
      var l := Lun(seq(g.blocks * g.planes, _ => Blk(0, 0, life)), Disk([], seq(g.blocks, _ => 0)));
      luns := map ch, lun | 0 <= ch < chans && 0 <= lun < lunsPerCh :: (ch, lun) := l;
      history, trace := [], [];
      EmptyLun(g, l);
    }

    /** fbe_append_blk_file. */
    method AppendBlkFile(k: Key)
      requires k in luns
      modifies this`luns, this`trace
      ensures trace == old(trace) + [Append(g.Extent())]
      ensures luns == old(luns)[k := old(luns[k]).(disk := Apply(old(luns[k].disk), Append(g.Extent())))]
    {
      var l := luns[k];
      luns := luns[k := l.(disk := Apply(l.disk, Append(g.Extent())))];
      trace := trace + [Append(g.Extent())];
    }

    /** fbe_update_md_file: the id of the block, read from its plane `pl`. */
    method UpdateMdFile(k: Key, b: nat, pl: nat)
      requires k in luns && b < g.blocks && pl < g.planes && |luns[k].blk| == g.blocks * g.planes
      requires At(g, b, pl) < |luns[k].blk|
      modifies this`luns, this`trace
      ensures var op := SetMd(b, old(luns[k].blk[At(g, b, pl)].fileId));
              trace == old(trace) + [op] &&
              luns == old(luns)[k := old(luns[k]).(disk := Apply(old(luns[k].disk), op))]
    {
      var l := luns[k];
      var op := SetMd(b, l.blk[At(g, b, pl)].fileId);
      luns := luns[k := l.(disk := Apply(l.disk, op))];
      trace := trace + [op];
    }

    /** The writing half of fbe_rw_file, and fbe_erase_file with page 0 and a plane of zeros. */
    method PwriteFile(k: Key, b: nat, pl: nat, pg: nat, buf: seq<byte>)
      requires k in luns && b < g.blocks && pl < g.planes && |luns[k].blk| == g.blocks * g.planes
      requires At(g, b, pl) < |luns[k].blk|
      modifies this`luns, this`trace
      ensures var off := old(luns[k].blk[At(g, b, pl)].offset) + pl * g.PlaneSize() + pg * g.pgSize;
              trace == old(trace) + [Pwrite(off, buf)] &&
              luns == old(luns)[k := old(luns[k]).(disk := Apply(old(luns[k].disk), Pwrite(off, buf)))]
    {
      var l := luns[k];
      var off := l.blk[At(g, b, pl)].offset + pl * g.PlaneSize() + pg * g.pgSize;
      luns := luns[k := l.(disk := Apply(l.disk, Pwrite(off, buf)))];
      trace := trace + [Pwrite(off, buf)];
    }

    /** The first write into a block: a zero extent at the end of the file, the next id for every
        plane, and the id on disk. */
    method MapBlock(k: Key, b: nat, pl: nat)
      requires k in luns && LunInv(g, luns[k]) && b < g.blocks && pl < g.planes
      requires luns[k].disk.md[b] == 0
      modifies this`luns, this`trace
      ensures luns.Keys == old(luns.Keys) && forall j :: j in luns && j != k ==> luns[j] == old(luns[j])
      ensures LunInv(g, luns[k]) && LifeKept(old(luns[k].blk), luns[k].blk)
      ensures luns[k].disk == Extended(g, old(luns[k].disk), b) && luns[k].disk.md[b] != 0
      ensures trace == old(trace) + [Append(g.Extent()), SetMd(b, Count(old(luns[k].disk.md)) + 1)]
    {
      hide Ids, Count, Geo.Extent, Remap, At, Page;
      ghost var l := luns[k];
      AtInside(g, b, pl);
      AppendBlkFile(k);
      var count := CountMapped(g, luns[k].blk, l.disk.md);
      count := count + 1;
      var blk := AssignPlanes(g, luns[k].blk, b, count, g.Extent() * (count - 1));
      luns := luns[k := luns[k].(blk := blk)];
      assert g.Extent() * (count - 1) == (count - 1) * g.Extent();
      RemapMapped(g, l.blk, l.disk.md, b, count);
      assert BlkOk(g, blk, l.disk.md[b := count], b, pl);
      UpdateMdFile(k, b, pl);
      ExtendKeeps(g, l.disk, b);
    }

    /** MMGR_WRITE_PG. The page then holds the buffer, every other page what it held; the file
        operations are those of `WriteOps`, in that order. */
    method WritePage(a: Addr, buf: seq<byte>)
      requires Valid() && Has(a) && |buf| == g.pgSize
      modifies this
      ensures Valid() && history == old(history) + [Write(a, buf)]
      ensures trace == old(trace) + WriteOps(g, old(luns[(a.ch, a.lun)].disk.md), a.b, a.pl, a.pg, buf)
      ensures luns[(a.ch, a.lun)].disk == Written(g, old(luns[(a.ch, a.lun)].disk), a.b, a.pl, a.pg, buf)
      ensures forall j :: j in old(luns) && j != (a.ch, a.lun) ==> j in luns && luns[j] == old(luns[j])
      ensures LifeKept(old(luns[(a.ch, a.lun)].blk), luns[(a.ch, a.lun)].blk)
    {
      hide Ids, Count, Page, Last, WriteOps, Written, Mapped, Zeros;
      var k := (a.ch, a.lun);
      ghost var l := luns[k];
      PutPage(k, a.b, a.pl, a.pg, buf);
      history := history + [Write(a, buf)];
      WriteStores(g, l.disk, a.b, a.pl, a.pg, buf);
      forall c | Has(c) ensures Stored(c) == Last(history, c, g.pgSize) {
        LastWrite(old(history), a, buf, c, g.pgSize);
        assert old(Stored(c)) == Last(old(history), c, g.pgSize);
      }
    }

    /** The page write on the files of one LUN. */
    method PutPage(k: Key, b: nat, pl: nat, pg: nat, buf: seq<byte>)
      requires k in luns && LunInv(g, luns[k]) && InGeo(g, b, pl, pg) && |buf| == g.pgSize
      modifies this`luns, this`trace
      ensures luns.Keys == old(luns.Keys) && forall j :: j in luns && j != k ==> luns[j] == old(luns[j])
      ensures luns[k].disk == Written(g, old(luns[k].disk), b, pl, pg, buf) && Mapped(g, luns[k].blk, luns[k].disk.md)
      ensures LifeKept(old(luns[k].blk), luns[k].blk)
      ensures trace == old(trace) + WriteOps(g, old(luns[k].disk.md), b, pl, pg, buf)
    {
      hide Ids, Count, Geo.Extent, Geo.PlaneSize, Remap, At, Apply, ApplyAll, WriteOps, Written, Extended, Zeros;
      ghost var l := luns[k];
      AtInside(g, b, pl);
      assert BlkOk(g, l.blk, l.disk.md, b, pl);
      if luns[k].blk[At(g, b, pl)].fileId == 0 {
        MapBlock(k, b, pl);
      }
      ghost var m := luns[k];
      assert BlkOk(g, m.blk, m.disk.md, b, pl);
      PwriteFile(k, b, pl, pg, buf);
      WrittenSteps(g, l.disk, m.disk, b, pl, pg, buf);
    }

    /** MMGR_READ_PG: the last write since the last erase of the plane block. The buffer was zeroed
        before, and a block without an extent leaves it so. */
    method ReadPage(a: Addr) returns (buf: seq<byte>)
      requires Valid() && Has(a)
      ensures buf == Last(history, a, g.pgSize)
    {
      hide Ids, Count, Geo.Extent, Geo.PlaneSize, At, Last;
      buf := Zeros(g.pgSize);
      var l := luns[(a.ch, a.lun)];
      AtInside(g, a.b, a.pl);
      assert BlkOk(g, l.blk, l.disk.md, a.b, a.pl);
      var c := l.blk[At(g, a.b, a.pl)];
      if c.fileId != 0 {
        PageFits(g, l.disk, a.b, a.pl, a.pg);
        buf := Slice(l.disk.file, c.offset + a.pl * g.PlaneSize() + a.pg * g.pgSize, g.pgSize);
      }
      assert Stored(a) == Last(history, a, g.pgSize);
    }

    /** MMGR_ERASE_BLK: refused, without effect, when the plane block has no life left. */
    method EraseBlk(a: Addr) returns (ok: bool)
      requires Valid() && Has(a)
      modifies this
      ensures Valid()
      ensures var i := At(g, a.b, a.pl);
              i < |old(luns[(a.ch, a.lun)].blk)| && ok == (old(luns[(a.ch, a.lun)].blk)[i].life > 0) &&
              (ok ==> luns[(a.ch, a.lun)].blk ==
                        var blk := old(luns[(a.ch, a.lun)].blk); blk[i := blk[i].(life := blk[i].life - 1)])
      ensures forall j :: j in old(luns) && j != (a.ch, a.lun) ==> j in luns && luns[j] == old(luns[j])
      ensures history == if ok then old(history) + [Erase(a)] else old(history)
      ensures !ok ==> luns == old(luns)
    {
      hide Ids, Count, Geo.Extent, Geo.PlaneSize, At, Page, Last, Splice;
      var k := (a.ch, a.lun);
      ghost var l := luns[k];
      AtInside(g, a.b, a.pl);
      assert BlkOk(g, l.blk, l.disk.md, a.b, a.pl);
      var i := At(g, a.b, a.pl);
      ok := luns[k].blk[i].life > 0;
      if ok {
        var blk := luns[k].blk[i := luns[k].blk[i].(life := luns[k].blk[i].life - 1)];
        LifeKeepsMapped(g, l.blk, l.disk.md, i, l.blk[i].life - 1);
        luns := luns[k := luns[k].(blk := blk)];
        if luns[k].blk[i].fileId != 0 {
          PwriteFile(k, a.b, a.pl, 0, Zeros(g.PlaneSize()));
          EraseInPlace(g, l.disk, a.b, a.pl);
        }
        history := history + [Erase(a)];
        ErasedPages(g, l.disk, luns[k].disk, a.b, a.pl);
        forall c | Has(c) ensures Stored(c) == Last(history, c, g.pgSize) {
          LastErase(old(history), a, c, g.pgSize);
          assert old(Stored(c)) == Last(old(history), c, g.pgSize);
        }
      }
    }

    /** fbe_disk_md_load for one LUN after a clean stop: no page changes. */
    method Restart(k: Key, life: nat)
      requires Valid() && k in luns
      modifies this`luns
      ensures Valid() && luns.Keys == old(luns.Keys)
      ensures luns[k].disk == old(luns[k].disk)
      ensures forall j :: j in luns && j != k ==> luns[j] == old(luns[j])
    {
      hide Ids, Count, Geo.Extent, Remap, At, Page, Last;
      ghost var l := luns[k];
      var m := LoadDisk(g, luns[k].disk, life);
      luns := luns[k := m];
      ReloadClean(g, l.disk);
      forall c | Has(c) ensures Stored(c) == Last(history, c, g.pgSize) {
        assert old(Stored(c)) == Last(old(history), c, g.pgSize);
      }
    }
  }

  lemma EmptyLun(g: Geo, l: Lun)
    requires g.Sound()
    requires |l.blk| == g.blocks * g.planes && forall i :: 0 <= i < |l.blk| ==> l.blk[i].fileId == 0
    requires l.disk.file == [] && l.disk.md == seq(g.blocks, _ => 0)
    ensures LunInv(g, l)
  {
    CountZeros(l.disk.md);
    forall b, pl | 0 <= b < g.blocks && 0 <= pl < g.planes ensures BlkOk(g, l.blk, l.disk.md, b, pl) {
      AtInside(g, b, pl);
    }
  }

  lemma {:induction false} CountZeros(md: seq<nat>)
    requires forall i :: 0 <= i < |md| ==> md[i] == 0
    ensures Count(md) == 0
  {
    if md != [] { CountZeros(md[..|md| - 1]); }
  }

  lemma LastWrite(h: seq<StoreOp>, a: Addr, buf: seq<byte>, c: Addr, n: nat)
    ensures Last(h + [Write(a, buf)], c, n) == if c == a then buf else Last(h, c, n)
  {
    assert (h + [Write(a, buf)])[..|h|] == h;
  }

  lemma LastErase(h: seq<StoreOp>, a: Addr, c: Addr, n: nat)
    ensures Last(h + [Erase(a)], c, n) == if SamePlane(a, c) then Zeros(n) else Last(h, c, n)
  {
    assert (h + [Erase(a)])[..|h|] == h;
  }

  /** The device's steps are the file operations of the page write. */
  lemma WrittenSteps(g: Geo, d: Disk, m: Disk, b: nat, pl: nat, pg: nat, buf: seq<byte>)
    requires b < |d.md| && b < |m.md| && m.md[b] != 0
    requires m == if d.md[b] != 0 then d else Extended(g, d, b)
    ensures Written(g, d, b, pl, pg, buf) == Apply(m, Pwrite(Offset(g, m.md[b], pl, pg), buf))
    ensures Written(g, d, b, pl, pg, buf).md == m.md
    ensures WriteOps(g, d.md, b, pl, pg, buf) ==
            (if d.md[b] != 0 then [] else [Append(g.Extent()), SetMd(b, Count(d.md) + 1)])
            + [Pwrite(Offset(g, m.md[b], pl, pg), buf)]
  {
    var ops := WriteOps(g, d.md, b, pl, pg, buf);
    if d.md[b] != 0 {
      ApplyOne(d, ops);
    } else {
      ApplyThree(d, ops);
    }
  }

  lemma ErasedPages(g: Geo, d: Disk, d': Disk, b: nat, pl: nat)
    requires DiskInv(g, d) && b < g.blocks && pl < g.planes && 0 < g.pages
    requires d.md[b] == 0 ==> d' == d
    requires d.md[b] != 0 ==>
      d' == Apply(d, Pwrite(Offset(g, d.md[b], pl, 0), Zeros(g.PlaneSize())))
    ensures DiskInv(g, d')
    ensures forall c: nat, cl: nat, cg: nat | InGeo(g, c, cl, cg) ::
      Page(g, d', c, cl, cg) == if c == b && cl == pl then Zeros(g.pgSize) else Page(g, d, c, cl, cg)
  {
    if d.md[b] != 0 {
      EraseInPlace(g, d, b, pl);
    }
  }
}
