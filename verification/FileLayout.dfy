/** Where the file-backed media manager (mmgr/file-be/file-be.c) keeps a page: one file per LUN,
    one extent per block that was ever written, planes and pages in order inside the extent. */
module FileLayout {
  import opened Arithmetic
  import opened Bytes

  datatype Geo = Geo(blocks: nat, planes: nat, pages: nat, pgSize: nat)
  {
    ghost predicate Sound() { 0 < blocks && 0 < planes && 0 < pages && 0 < pgSize }
    function PlaneSize(): nat { pages * pgSize }
    function Extent(): nat { planes * PlaneSize() }
  }

  function Zeros(n: nat): (r: seq<byte>)
    ensures |r| == n && forall i :: 0 <= i < n ==> r[i] == 0
  {
    seq(n, _ => 0)
  }

  /** Byte offset of a page in the extent numbered `id` (from 1). */
  function Offset(g: Geo, id: nat, pl: nat, pg: nat): nat
    requires 0 < id
  {
    (id - 1) * g.Extent() + pl * g.PlaneSize() + pg * g.pgSize
  }

  lemma PageInPlane(g: Geo, pg: nat)
    requires pg < g.pages
    ensures pg * g.pgSize + g.pgSize <= g.PlaneSize()
  {
    MulMono(pg + 1, g.pages, g.pgSize);
    assert (pg + 1) * g.pgSize == pg * g.pgSize + g.pgSize;
  }

  lemma PlaneInExtent(g: Geo, pl: nat)
    requires pl < g.planes
    ensures pl * g.PlaneSize() + g.PlaneSize() <= g.Extent()
  {
    MulMono(pl + 1, g.planes, g.PlaneSize());
    assert (pl + 1) * g.PlaneSize() == pl * g.PlaneSize() + g.PlaneSize();
  }

  /** Every plane of a recorded extent lies inside the file. */
  lemma PlaneInFile(g: Geo, id: nat, n: nat, pl: nat)
    requires 0 < id <= n && pl < g.planes
    ensures Offset(g, id, pl, 0) + g.PlaneSize() <= n * g.Extent()
  {
    PlaneInExtent(g, pl);
    MulMono(id, n, g.Extent());
    assert id * g.Extent() == (id - 1) * g.Extent() + g.Extent();
  }

  lemma PageInside(g: Geo, id: nat, pl: nat, pg: nat)
    requires 0 < id && pg < g.pages
    ensures Offset(g, id, pl, 0) <= Offset(g, id, pl, pg)
    ensures Offset(g, id, pl, pg) + g.pgSize <= Offset(g, id, pl, 0) + g.PlaneSize()
  {
    PageInPlane(g, pg);
  }

  /** The planes of different extents, and different planes of one extent, do not overlap. */
  lemma PlanesApart(g: Geo, id: nat, pl: nat, id': nat, pl': nat)
    requires 0 < id && 0 < id' && pl < g.planes && pl' < g.planes
    requires id < id' || (id == id' && pl < pl')
    ensures Offset(g, id, pl, 0) + g.PlaneSize() <= Offset(g, id', pl', 0)
  {
    if id < id' {
      PlaneInExtent(g, pl);
      MulMono(id, id' - 1, g.Extent());
      assert id * g.Extent() == (id - 1) * g.Extent() + g.Extent();
    } else {
      MulMono(pl + 1, pl', g.PlaneSize());
      assert (pl + 1) * g.PlaneSize() == pl * g.PlaneSize() + g.PlaneSize();
    }
  }

  /** The byte ranges of different pages do not overlap. */
  lemma PagesApart(g: Geo, id: nat, pl: nat, pg: nat, id': nat, pl': nat, pg': nat)
    requires 0 < id && 0 < id' && pl < g.planes && pl' < g.planes && pg < g.pages && pg' < g.pages
    requires id < id' || (id == id' && (pl < pl' || (pl == pl' && pg < pg')))
    ensures Offset(g, id, pl, pg) + g.pgSize <= Offset(g, id', pl', pg')
  {
    if id == id' && pl == pl' {
      MulMono(pg + 1, pg', g.pgSize);
      assert (pg + 1) * g.pgSize == pg * g.pgSize + g.pgSize;
    } else {
      PlanesApart(g, id, pl, id', pl');
      PageInside(g, id, pl, pg);
      PageInside(g, id', pl', pg');
    }
  }

  // ----- Reading and writing a file -----

  function Slice(f: seq<byte>, off: nat, n: nat): seq<byte>
    requires off + n <= |f|
  {
    f[off..off + n]
  }

  /** pwrite inside the file. */
  function Splice(f: seq<byte>, off: nat, buf: seq<byte>): (r: seq<byte>)
    requires off + |buf| <= |f|
    ensures |r| == |f|
  {
    f[..off] + buf + f[off + |buf|..]
  }

  lemma SpliceSame(f: seq<byte>, off: nat, buf: seq<byte>)
    requires off + |buf| <= |f|
    ensures Slice(Splice(f, off, buf), off, |buf|) == buf
  {
  }

  lemma SpliceElsewhere(f: seq<byte>, off: nat, buf: seq<byte>, o: nat, n: nat)
    requires off + |buf| <= |f| && o + n <= |f| && (o + n <= off || off + |buf| <= o)
    ensures Slice(Splice(f, off, buf), o, n) == Slice(f, o, n)
  {
    var r := Splice(f, off, buf);
    var x, y := r[o..o + n], f[o..o + n];
    forall k | 0 <= k < n ensures x[k] == y[k] {
      assert r[o + k] == f[o + k];
    }
  }

  lemma SpliceInside(f: seq<byte>, off: nat, buf: seq<byte>, o: nat, n: nat)
    requires off + |buf| <= |f| && off <= o && o + n <= off + |buf|
    ensures Slice(Splice(f, off, buf), o, n) == buf[o - off..o - off + n]
  {
    var r := Splice(f, off, buf);
    var x, y := r[o..o + n], buf[o - off..o - off + n];
    forall k | 0 <= k < n ensures x[k] == y[k] {
      assert r[o + k] == buf[o - off + k];
    }
  }
}
