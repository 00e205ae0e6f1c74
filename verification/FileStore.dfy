/** One LUN of the file-backed media manager (mmgr/file-be/file-be.c) as a value: the block table in
    memory, the data file and the metadata file; what a page holds; what the file operations of a
    page write leave behind when the system stops between any two of them. */
module FileStore {
  import opened Arithmetic
  import opened Bytes
  import opened FileLayout

  /** FileBEBlock: one per block and plane. */
  datatype Blk = Blk(fileId: nat, offset: nat, life: nat)

  /** What survives a restart. A missing data file is the empty one. */
  datatype Disk = Disk(file: seq<byte>, md: seq<nat>)

  datatype Lun = Lun(blk: seq<Blk>, disk: Disk)

  /** fbe_get_block: the position of a plane block in the block table. */
  function At(g: Geo, b: nat, pl: nat): nat { b * g.planes + pl }

  lemma AtInside(g: Geo, b: nat, pl: nat)
    requires b < g.blocks && pl < g.planes
    ensures At(g, b, pl) < g.blocks * g.planes
  {
    IndexBound(b, g.blocks, pl, g.planes);
  }

  lemma AtBlock(g: Geo, b: nat, b': nat, pl: nat)
    requires pl < g.planes
    ensures At(g, b, 0) <= At(g, b', pl) < At(g, b, 0) + g.planes <==> b == b'
  {
    if b < b' {
      MulMono(b + 1, b', g.planes);
    } else if b' < b {
      MulMono(b' + 1, b, g.planes);
    }
  }

  /** How many blocks have an extent. */
  function Count(md: seq<nat>): (n: nat)
    ensures n <= |md|
  {
    if md == [] then 0
    else Count(md[..|md| - 1]) + if md[|md| - 1] != 0 then 1 else 0
  }

  lemma {:induction false} CountUpdate(md: seq<nat>, b: nat, id: nat)
    requires b < |md| && md[b] == 0 && id != 0
    ensures Count(md[b := id]) == Count(md) + 1
  {
    var n := |md| - 1;
    if b == n {
      assert md[b := id][..n] == md[..n];
    } else {
      assert md[b := id][..n] == md[..n][b := id];
      CountUpdate(md[..n], b, id);
    }
  }

  /** The ids in use are exactly 1..n, each used by one block. */
  ghost predicate Ids(md: seq<nat>) {
    (forall b :: 0 <= b < |md| ==> md[b] <= Count(md)) &&
    (forall b, c :: 0 <= b < c < |md| && md[b] != 0 ==> md[b] != md[c]) &&
    (forall i :: 1 <= i <= Count(md) ==> i in md)
  }

  lemma IdsExtend(md: seq<nat>, b: nat)
    requires Ids(md) && b < |md| && md[b] == 0
    ensures Ids(md[b := Count(md) + 1]) && Count(md[b := Count(md) + 1]) == Count(md) + 1
  {
    var id := Count(md) + 1;
    var md' := md[b := id];
    CountUpdate(md, b, id);
    forall i | 1 <= i <= id ensures i in md' {
      if i == id {
        assert md'[b] == id;
      } else {
        assert i in md;
        var c :| 0 <= c < |md| && md[c] == i;
        assert md'[c] == i;
      }
    }
  }

  ghost predicate DiskInv(g: Geo, d: Disk) {
    |d.md| == g.blocks && Ids(d.md) && |d.file| == Count(d.md) * g.Extent()
  }

  ghost predicate BlkOk(g: Geo, blk: seq<Blk>, md: seq<nat>, b: nat, pl: nat)
    requires |blk| == g.blocks * g.planes && |md| == g.blocks && b < g.blocks && pl < g.planes
  {
    AtInside(g, b, pl);
    var c := blk[At(g, b, pl)];
    c.fileId == md[b] && (md[b] != 0 ==> c.offset == (md[b] - 1) * g.Extent())
  }

  /** The block table agrees with the metadata file: every plane of a block has the block's id. */
  ghost predicate Mapped(g: Geo, blk: seq<Blk>, md: seq<nat>) {
    |blk| == g.blocks * g.planes && |md| == g.blocks &&
    forall b, pl :: 0 <= b < g.blocks && 0 <= pl < g.planes ==> BlkOk(g, blk, md, b, pl)
  }

  ghost predicate LunInv(g: Geo, l: Lun) {
    g.Sound() && DiskInv(g, l.disk) && Mapped(g, l.blk, l.disk.md)
  }

  ghost predicate InGeo(g: Geo, b: nat, pl: nat, pg: nat) {
    b < g.blocks && pl < g.planes && pg < g.pages
  }

  lemma PageFits(g: Geo, d: Disk, b: nat, pl: nat, pg: nat)
    requires DiskInv(g, d) && InGeo(g, b, pl, pg) && d.md[b] != 0
    ensures Offset(g, d.md[b], pl, 0) + g.PlaneSize() <= |d.file|
    ensures Offset(g, d.md[b], pl, pg) + g.pgSize <= |d.file|
  {
    PlaneInFile(g, d.md[b], Count(d.md), pl);
    PageInside(g, d.md[b], pl, pg);
  }

  /** What a page holds: zeros until its block has an extent. */
  ghost function Page(g: Geo, d: Disk, b: nat, pl: nat, pg: nat): seq<byte>
    requires DiskInv(g, d) && InGeo(g, b, pl, pg)
  {
    if d.md[b] == 0 then Zeros(g.pgSize)
    else
      PageFits(g, d, b, pl, pg);
      Slice(d.file, Offset(g, d.md[b], pl, pg), g.pgSize)
  }

  // ----- The operations on the files -----

  datatype FileOp = Append(n: nat) | SetMd(b: nat, id: nat) | Pwrite(off: nat, buf: seq<byte>)

  /** O_APPEND write, pwrite into the metadata file, pwrite into the data file (which grows when the
      range is past its end). */
  function Apply(d: Disk, op: FileOp): Disk {
    match op
    case Append(n) => d.(file := d.file + Zeros(n))
    case SetMd(b, id) => if b < |d.md| then d.(md := d.md[b := id]) else d
    case Pwrite(off, buf) => d.(file := PwriteGrow(d.file, off, buf))
  }

  function PwriteGrow(f: seq<byte>, off: nat, buf: seq<byte>): seq<byte> {
    if off + |buf| <= |f| then Splice(f, off, buf)
    else if off <= |f| then f[..off] + buf
    else f + Zeros(off - |f|) + buf
  }

  function ApplyAll(d: Disk, ops: seq<FileOp>): Disk {
    if ops == [] then d else Apply(ApplyAll(d, ops[..|ops| - 1]), ops[|ops| - 1])
  }

  /** The file operations of one page write, in order (fbe_process_io, MMGR_WRITE_PG). */
  function WriteOps(g: Geo, md: seq<nat>, b: nat, pl: nat, pg: nat, buf: seq<byte>): seq<FileOp>
    requires b < |md|
  {
    if md[b] != 0 then [Pwrite(Offset(g, md[b], pl, pg), buf)]
    else
      var id := Count(md) + 1;
      [Append(g.Extent()), SetMd(b, id), Pwrite(Offset(g, id, pl, pg), buf)]
  }

  // ----- A new extent -----

  /** The disk once an extent was appended and recorded for block `b`. */
  ghost function Extended(g: Geo, d: Disk, b: nat): Disk
    requires b < |d.md|
  {
    Disk(d.file + Zeros(g.Extent()), d.md[b := Count(d.md) + 1])
  }

  /** Recording an appended extent keeps the disk invariant and changes no page. */
  lemma ExtendKeeps(g: Geo, d: Disk, b: nat)
    requires DiskInv(g, d) && b < g.blocks && d.md[b] == 0
    ensures DiskInv(g, Extended(g, d, b)) && SamePages(g, d, Extended(g, d, b))
  {
    hide Ids, Count, Geo.Extent, Geo.PlaneSize, Page;
    IdsExtend(d.md, b);
    OneMore(Count(d.md), g.Extent());
    var d' := Extended(g, d, b);
    forall b': nat, pl: nat, pg: nat | InGeo(g, b', pl, pg)
      ensures Page(g, d', b', pl, pg) == Page(g, d, b', pl, pg)
    {
      ExtendPage(g, d, d', b, b', pl, pg);
    }
  }

  lemma OneMore(n: nat, e: nat)
    ensures (n + 1) * e == n * e + e
  {
  }

  lemma ExtendPage(g: Geo, d: Disk, d': Disk, b: nat, b': nat, pl: nat, pg: nat)
    requires DiskInv(g, d) && DiskInv(g, d') && b < g.blocks && d.md[b] == 0 && InGeo(g, b', pl, pg)
    requires d' == Extended(g, d, b)
    ensures Page(g, d', b', pl, pg) == Page(g, d, b', pl, pg)
  {
    hide Ids, Count, Offset, Geo.Extent, Geo.PlaneSize;
    PageFitsIf(g, d', b', pl, pg);
    PageFitsIf(g, d, b', pl, pg);
    if b' == b {
      NewExtentIsZero(g, d.file, Count(d.md), pl, pg);
    } else {
      assert d'.md[b'] == d.md[b'];
    }
  }

  lemma PageFitsIf(g: Geo, d: Disk, b: nat, pl: nat, pg: nat)
    requires DiskInv(g, d) && InGeo(g, b, pl, pg)
    ensures d.md[b] != 0 ==> Offset(g, d.md[b], pl, pg) + g.pgSize <= |d.file|
  {
    if d.md[b] != 0 { PageFits(g, d, b, pl, pg); }
  }

  lemma NewExtentIsZero(g: Geo, f: seq<byte>, n: nat, pl: nat, pg: nat)
    requires |f| == n * g.Extent() && pl < g.planes && pg < g.pages
    ensures Offset(g, n + 1, pl, pg) + g.pgSize <= |f| + g.Extent()
    ensures Slice(f + Zeros(g.Extent()), Offset(g, n + 1, pl, pg), g.pgSize) == Zeros(g.pgSize)
  {
    PlaneInExtent(g, pl);
    PageInPlane(g, pg);
    var e, o := g.Extent(), Offset(g, n + 1, pl, pg);
    ZeroTail(f, e, o, g.pgSize);
  }

  lemma ZeroTail(f: seq<byte>, e: nat, o: nat, n: nat)
    requires |f| <= o && o + n <= |f| + e
    ensures Slice(f + Zeros(e), o, n) == Zeros(n)
  {
  }

  // ----- Writing and erasing in a recorded extent -----

  ghost predicate SameExcept(g: Geo, d: Disk, d': Disk, b: nat, pl: nat, pg: nat)
    requires DiskInv(g, d) && DiskInv(g, d')
  {
    forall b': nat, pl': nat, pg': nat :: InGeo(g, b', pl', pg') && (b', pl', pg') != (b, pl, pg) ==>
      Page(g, d', b', pl', pg') == Page(g, d, b', pl', pg')
  }

  lemma WriteInPlace(g: Geo, d: Disk, b: nat, pl: nat, pg: nat, buf: seq<byte>)
    requires DiskInv(g, d) && InGeo(g, b, pl, pg) && d.md[b] != 0 && |buf| == g.pgSize
    ensures Offset(g, d.md[b], pl, pg) + |buf| <= |d.file|
    ensures var d' := d.(file := Splice(d.file, Offset(g, d.md[b], pl, pg), buf));
            DiskInv(g, d') && Page(g, d', b, pl, pg) == buf && SameExcept(g, d, d', b, pl, pg)
  {
    PageFits(g, d, b, pl, pg);
    var off := Offset(g, d.md[b], pl, pg);
    var d' := d.(file := Splice(d.file, off, buf));
    SpliceSame(d.file, off, buf);
    forall b': nat, pl': nat, pg': nat | InGeo(g, b', pl', pg') && (b', pl', pg') != (b, pl, pg)
      ensures Page(g, d', b', pl', pg') == Page(g, d, b', pl', pg')
    {
      if d.md[b'] != 0 {
        PageFits(g, d, b', pl', pg');
        Apart(g, d.md, b, pl, pg, b', pl', pg');
        SpliceElsewhere(d.file, off, buf, Offset(g, d.md[b'], pl', pg'), g.pgSize);
      }
    }
  }

  lemma Apart(g: Geo, md: seq<nat>, b: nat, pl: nat, pg: nat, b': nat, pl': nat, pg': nat)
    requires |md| == g.blocks && Ids(md) && InGeo(g, b, pl, pg) && InGeo(g, b', pl', pg')
    requires md[b] != 0 && md[b'] != 0 && (b', pl', pg') != (b, pl, pg)
    ensures Offset(g, md[b'], pl', pg') + g.pgSize <= Offset(g, md[b], pl, pg)
         || Offset(g, md[b], pl, pg) + g.pgSize <= Offset(g, md[b'], pl', pg')
  {
    var i, i' := md[b], md[b'];
    assert i == i' ==> b == b';
    if i < i' || (i == i' && (pl < pl' || (pl == pl' && pg < pg'))) {
      PagesApart(g, i, pl, pg, i', pl', pg');
    } else {
      PagesApart(g, i', pl', pg', i, pl, pg);
    }
  }

  /** Zeroing a plane of an extent zeroes the pages of that plane block and no other. */
  lemma EraseInPlace(g: Geo, d: Disk, b: nat, pl: nat)
    requires DiskInv(g, d) && b < g.blocks && pl < g.planes && 0 < g.pages && d.md[b] != 0
    ensures Offset(g, d.md[b], pl, 0) + g.PlaneSize() <= |d.file|
    ensures var d' := d.(file := Splice(d.file, Offset(g, d.md[b], pl, 0), Zeros(g.PlaneSize())));
            DiskInv(g, d') &&
            forall b': nat, pl': nat, pg': nat | InGeo(g, b', pl', pg') ::
              Page(g, d', b', pl', pg') ==
              if b' == b && pl' == pl then Zeros(g.pgSize) else Page(g, d, b', pl', pg')
  {
    PageFits(g, d, b, pl, 0);
    var off, z := Offset(g, d.md[b], pl, 0), Zeros(g.PlaneSize());
    var d' := d.(file := Splice(d.file, off, z));
    forall b': nat, pl': nat, pg': nat | InGeo(g, b', pl', pg')
      ensures Page(g, d', b', pl', pg') ==
              if b' == b && pl' == pl then Zeros(g.pgSize) else Page(g, d, b', pl', pg')
    {
      if d.md[b'] != 0 {
        PageFits(g, d, b', pl', pg');
        PageInside(g, d.md[b'], pl', pg');
        var o := Offset(g, d.md[b'], pl', pg');
        if b' == b && pl' == pl {
          SpliceInside(d.file, off, z, o, g.pgSize);
        } else {
          var i, i' := d.md[b], d.md[b'];
          assert i == i' ==> b == b';
          if i < i' || (i == i' && pl < pl') {
            PlanesApart(g, i, pl, i', pl');
          } else {
            PlanesApart(g, i', pl', i, pl);
          }
          SpliceElsewhere(d.file, off, z, o, g.pgSize);
        }
      }
    }
  }

  // ----- The block table -----

  /** The planes of block `b` get an id and an offset. */
  function Remap(g: Geo, blk: seq<Blk>, b: nat, n: nat, id: nat, off: nat): (r: seq<Blk>)
    ensures |r| == |blk|
  {
    seq(|blk|, i requires 0 <= i < |blk| =>
      if At(g, b, 0) <= i < At(g, b, 0) + n then blk[i].(fileId := id, offset := off) else blk[i])
  }

  /** No plane block has lost or gained life. */
  ghost predicate LifeKept(blk: seq<Blk>, blk': seq<Blk>) {
    |blk'| == |blk| && forall i :: 0 <= i < |blk| ==> blk'[i].life == blk[i].life
  }

  lemma RemapMapped(g: Geo, blk: seq<Blk>, md: seq<nat>, b: nat, id: nat)
    requires Mapped(g, blk, md) && b < g.blocks && 0 < id
    ensures Mapped(g, Remap(g, blk, b, g.planes, id, (id - 1) * g.Extent()), md[b := id])
    ensures LifeKept(blk, Remap(g, blk, b, g.planes, id, (id - 1) * g.Extent()))
  {
    var blk', md' := Remap(g, blk, b, g.planes, id, (id - 1) * g.Extent()), md[b := id];
    forall b', pl | 0 <= b' < g.blocks && 0 <= pl < g.planes ensures BlkOk(g, blk', md', b', pl) {
      assert BlkOk(g, blk, md, b', pl);
      AtInside(g, b', pl);
      AtBlock(g, b, b', pl);
    }
  }

  lemma LifeKeepsMapped(g: Geo, blk: seq<Blk>, md: seq<nat>, i: nat, life: nat)
    requires Mapped(g, blk, md) && i < |blk|
    ensures Mapped(g, blk[i := blk[i].(life := life)], md)
  {
    var blk' := blk[i := blk[i].(life := life)];
    forall b, pl | 0 <= b < g.blocks && 0 <= pl < g.planes ensures BlkOk(g, blk', md, b, pl) {
      assert BlkOk(g, blk, md, b, pl);
      AtInside(g, b, pl);
    }
  }

  // ----- Restart -----

  /** What fbe_disk_md_load leaves on disk: the data file cut to the recorded extents (and removed
      when there is none); cutting a shorter file would fill it with zeros. */
  function Reload(g: Geo, d: Disk): Disk {
    d.(file := Resize(d.file, Count(d.md) * g.Extent()))
  }

  function Resize(f: seq<byte>, n: nat): (r: seq<byte>)
    ensures |r| == n
  {
    if n <= |f| then f[..n] else f + Zeros(n - |f|)
  }

  /** Reload after a clean stop changes nothing. */
  lemma ReloadClean(g: Geo, d: Disk)
    requires DiskInv(g, d)
    ensures Reload(g, d) == d
  {
  }

  ghost predicate SamePages(g: Geo, d: Disk, d': Disk)
    requires DiskInv(g, d) && DiskInv(g, d')
  {
    forall b: nat, pl: nat, pg: nat :: InGeo(g, b, pl, pg) ==> Page(g, d', b, pl, pg) == Page(g, d, b, pl, pg)
  }

  /** The whole page write on disk. */
  ghost function Written(g: Geo, d: Disk, b: nat, pl: nat, pg: nat, buf: seq<byte>): Disk
    requires b < |d.md|
  {
    ApplyAll(d, WriteOps(g, d.md, b, pl, pg, buf))
  }

  /** A page write stores its buffer in its page, and every other page keeps its contents. */
  lemma WriteStores(g: Geo, d: Disk, b: nat, pl: nat, pg: nat, buf: seq<byte>)
    requires DiskInv(g, d) && InGeo(g, b, pl, pg) && |buf| == g.pgSize
    ensures var d' := Written(g, d, b, pl, pg, buf);
            DiskInv(g, d') && Page(g, d', b, pl, pg) == buf && SameExcept(g, d, d', b, pl, pg)
  {
    hide Ids, Count, Offset, Geo.Extent, Geo.PlaneSize, Splice, Slice;
    var ops := WriteOps(g, d.md, b, pl, pg, buf);
    if d.md[b] != 0 {
      ApplyOne(d, ops);
      WriteInPlace(g, d, b, pl, pg, buf);
    } else {
      var e := Extended(g, d, b);
      ApplyThree(d, ops);
      ExtendKeeps(g, d, b);
      WriteInPlace(g, e, b, pl, pg, buf);
      var d' := Written(g, d, b, pl, pg, buf);
      forall b': nat, pl': nat, pg': nat | InGeo(g, b', pl', pg') && (b', pl', pg') != (b, pl, pg)
        ensures Page(g, d', b', pl', pg') == Page(g, d, b', pl', pg')
      {
        assert Page(g, e, b', pl', pg') == Page(g, d, b', pl', pg');
      }
    }
  }

  lemma ApplyOne(d: Disk, ops: seq<FileOp>)
    requires |ops| == 1
    ensures ApplyAll(d, ops) == Apply(d, ops[0])
  {
    assert ApplyAll(d, ops[..0]) == d;
  }

  lemma ApplyThree(d: Disk, ops: seq<FileOp>)
    requires |ops| == 3
    ensures ApplyAll(d, ops[..1]) == Apply(d, ops[0])
    ensures ApplyAll(d, ops[..2]) == Apply(Apply(d, ops[0]), ops[1])
    ensures ApplyAll(d, ops) == Apply(Apply(Apply(d, ops[0]), ops[1]), ops[2])
  {
    ApplyOne(d, ops[..1]);
    assert ops[..2][..1] == ops[..1];
    assert ApplyAll(d, ops[..2]) == Apply(ApplyAll(d, ops[..1]), ops[1]);
  }

  /** Stop after any number of the file operations of a page write and reload: the store is the one
      before the write or the one after it. An appended extent that was not recorded is cut off, and
      no recorded extent is lost. */
  lemma CrashSafe(g: Geo, d: Disk, b: nat, pl: nat, pg: nat, buf: seq<byte>, k: nat)
    requires DiskInv(g, d) && InGeo(g, b, pl, pg) && |buf| == g.pgSize
    requires k <= |WriteOps(g, d.md, b, pl, pg, buf)|
    ensures var ops := WriteOps(g, d.md, b, pl, pg, buf);
            var r := Reload(g, ApplyAll(d, ops[..k]));
            DiskInv(g, r) && DiskInv(g, ApplyAll(d, ops)) &&
            if k < |ops| then SamePages(g, d, r) else r == ApplyAll(d, ops)
  {
    hide Ids, Count, Offset, Geo.Extent, Geo.PlaneSize, Splice, Slice, Page;
    var ops := WriteOps(g, d.md, b, pl, pg, buf);
    WriteStores(g, d, b, pl, pg, buf);
    if k == |ops| {
      assert ops[..k] == ops;
      ReloadClean(g, ApplyAll(d, ops));
    } else if k == 0 {
      ReloadClean(g, d);
    } else {
      ApplyThree(d, ops);
      if k == 1 {
        assert Reload(g, ApplyAll(d, ops[..1])).file == d.file;
      } else {
        ExtendKeeps(g, d, b);
        var e := Extended(g, d, b);
        assert ApplyAll(d, ops[..2]) == e;
        ReloadClean(g, e);
      }
    }
  }
}
