/** Moving a flat table to and from flash pages that are spread over planes: ftl_nvm_seq_transfer
    (ftl/ftl_common.c), in units of table entries. */
module SeqTransfer {
  import opened Arithmetic

  datatype Ent = Ent(lba: nat, ppa: nat)

  /** The plane buffers of one multi-plane page. A plane may have room for more than its share. */
  type Page = seq<seq<Ent>>

  /** `planes` planes with `epp` table entries each. */
  datatype Layout = Layout(planes: nat, epp: nat)
  {
    ghost predicate Sound() { 0 < planes && 0 < epp }
    function EntPerPg(): nat { planes * epp }
  }

  ghost predicate Fits(p: Page, n: nat, epp: nat) {
    |p| == n && forall i :: 0 <= i < n ==> epp <= |p[i]|
  }

  /** The page as the flat piece of table it stands for. */
  ghost function Flat(p: Page, epp: nat): (r: seq<Ent>)
    requires Fits(p, |p|, epp)
    ensures |r| == |p| * epp
  {
    if p == [] then [] else Flat(p[..|p| - 1], epp) + p[|p| - 1][..epp]
  }

  lemma {:induction false} FlatPrefix(p: Page, epp: nat, k: nat)
    requires Fits(p, |p|, epp) && k <= |p|
    ensures Flat(p[..k], epp) <= Flat(p, epp)
  {
    if k < |p| {
      FlatPrefix(p[..|p| - 1], epp, k);
      assert p[..|p| - 1][..k] == p[..k];
    } else {
      assert p[..k] == p;
    }
  }

  lemma FlatNext(p: Page, epp: nat, k: nat)
    requires Fits(p, |p|, epp) && k < |p|
    ensures Flat(p[..k + 1], epp) == Flat(p[..k], epp) + p[k][..epp] && |Flat(p[..k], epp)| == k * epp
  {
    assert p[..k + 1][..k] == p[..k];
  }

  /** One page, to the plane buffers: the plane loop for NVM_TRANS_TO_NVM. The page then stands for
      the next `moved` entries of the table. */
  method Scatter(l: Layout, io: Page, user: seq<Ent>, base: nat, left: nat) returns (r: Page, rest: nat)
    requires l.Sound() && Fits(io, l.planes, l.epp) && base + Min(left, l.EntPerPg()) <= |user|
    ensures Fits(r, l.planes, l.epp) && rest == left - Min(left, l.EntPerPg())
    ensures var moved := Min(left, l.EntPerPg()); user[base..base + moved] <= Flat(r, l.epp)
  {
    hide Flat;
    r, rest := io, left;
    var pl := 0;
    ghost var done := 0;
    while pl < l.planes
      invariant 0 <= pl <= l.planes && Fits(r, l.planes, l.epp)
      invariant done == Min(left, pl * l.epp) && rest == left - done && (pl > 0 ==> rest > 0)
      invariant base + done <= |user|
      invariant user[base..base + done] <= Flat(r[..pl], l.epp)
    {
      PlaneRoom(l, pl, left);
      var n := if rest >= l.epp then l.epp else rest;
      var from := base + pl * l.epp;
      assert done == pl * l.epp && done + n == Min(left, (pl + 1) * l.epp) && base + done + n <= |user|;
      ScatterStep(r, l.epp, user[base..base + done], pl, user[from..from + n]);
      r := r[pl := user[from..from + n] + r[pl][n..]];
      Join(user, base, from, n);
      done := done + n;
      rest := rest - n;
      pl := pl + 1;
      if rest == 0 {
        FlatPrefix(r, l.epp, pl);
        return;
      }
    }
    assert r[..pl] == r;
  }

  lemma PlaneRoom(l: Layout, pl: nat, left: nat)
    requires l.Sound() && pl < l.planes && (pl > 0 ==> pl * l.epp < left)
    ensures pl * l.epp + l.epp <= l.EntPerPg()
    ensures Min(left, pl * l.epp) == pl * l.epp
    ensures var n := Min(left - pl * l.epp, l.epp);
            pl * l.epp + n == Min(left, (pl + 1) * l.epp) <= Min(left, l.EntPerPg())
  {
    MulMono(pl + 1, l.planes, l.epp);
    assert (pl + 1) * l.epp == pl * l.epp + l.epp;
  }

  /** Filling a plane adds its entries to what the planes before it stand for. */
  lemma ScatterStep(p: Page, epp: nat, before: seq<Ent>, k: nat, next: seq<Ent>)
    requires Fits(p, |p|, epp) && k < |p| && |next| <= epp && |before| == k * epp && before <= Flat(p[..k], epp)
    ensures var q := p[k := next + p[k][|next|..]];
            Fits(q, |p|, epp) && before + next <= Flat(q[..k + 1], epp)
  {
    var q := p[k := next + p[k][|next|..]];
    assert q[..k] == p[..k];
    FlatNext(q, epp, k);
    assert before == Flat(p[..k], epp);
  }

  lemma Join(s: seq<Ent>, a: nat, b: nat, n: nat)
    requires a <= b && b + n <= |s|
    ensures s[a..b] + s[b..b + n] == s[a..b + n]
  {
  }

  lemma GatherStep(p: Page, epp: nat, before: seq<Ent>, k: nat, n: nat)
    requires Fits(p, |p|, epp) && k < |p| && n <= epp && |before| == k * epp && before <= Flat(p[..k], epp)
    ensures before + p[k][..n] <= Flat(p[..k + 1], epp)
  {
    FlatNext(p, epp, k);
    assert before == Flat(p[..k], epp);
  }

  /** Replacing a piece of a list. */
  lemma Overwrite(s: seq<Ent>, base: nat, to: nat, piece: seq<Ent>)
    requires base <= to && to + |piece| <= |s|
    ensures var r := s[..to] + piece + s[to + |piece|..];
            |r| == |s| && r[..base] == s[..base] && r[base..to + |piece|] == s[base..to] + piece &&
            r[to + |piece|..] == s[to + |piece|..]
  {
  }

  lemma SameTail(a: seq<Ent>, b: seq<Ent>, at: nat, n: nat)
    requires |a| == |b| && at + n <= |a| && a[at..] == b[at..]
    ensures a[at + n..] == b[at + n..]
  {
    assert a[at + n..] == a[at..][n..] && b[at + n..] == b[at..][n..];
  }

  /** One page, from the plane buffers: the plane loop for NVM_TRANS_FROM_NVM. */
  method Gather(l: Layout, io: Page, user: seq<Ent>, base: nat, left: nat) returns (r: seq<Ent>, rest: nat)
    requires l.Sound() && Fits(io, l.planes, l.epp) && base + Min(left, l.EntPerPg()) <= |user|
    ensures |r| == |user| && rest == left - Min(left, l.EntPerPg())
    ensures var moved := Min(left, l.EntPerPg());
            r[..base] == user[..base] && r[base..base + moved] <= Flat(io, l.epp) &&
            r[base + moved..] == user[base + moved..]
  {
    hide Flat;
    r, rest := user, left;
    var pl := 0;
    ghost var done := 0;
    while pl < l.planes
      invariant 0 <= pl <= l.planes && |r| == |user|
      invariant done == Min(left, pl * l.epp) && rest == left - done && (pl > 0 ==> rest > 0)
      invariant base + done <= |user|
      invariant r[..base] == user[..base] && r[base + done..] == user[base + done..]
      invariant r[base..base + done] <= Flat(io[..pl], l.epp)
    {
      PlaneRoom(l, pl, left);
      var n := if rest >= l.epp then l.epp else rest;
      var to := base + pl * l.epp;
      assert done == pl * l.epp && to + n <= |r|;
      GatherStep(io, l.epp, r[base..to], pl, n);
      Overwrite(r, base, to, io[pl][..n]);
      SameTail(r, user, to, n);
      r := r[..to] + io[pl][..n] + r[to + n..];
      done := done + n;
      rest := rest - n;
      pl := pl + 1;
      if rest == 0 {
        FlatPrefix(io, l.epp, pl);
        return;
      }
    }
    assert io[..pl] == io;
  }

  // ----- Several pages -----

  ghost predicate Has(pages: map<nat, Page>, l: Layout, start: nat, n: nat) {
    forall k :: start <= k < start + n ==> k in pages && Fits(pages[k], l.planes, l.epp)
  }

  /** The piece of table that `n` pages from `start` on stand for. */
  ghost function Image(pages: map<nat, Page>, l: Layout, start: nat, n: nat): (r: seq<Ent>)
    requires Has(pages, l, start, n)
    ensures |r| == n * l.EntPerPg()
  {
    if n == 0 then []
    else
      assert (n - 1) * l.EntPerPg() + l.EntPerPg() == n * l.EntPerPg();
      Image(pages, l, start, n - 1) + Flat(pages[start + n - 1], l.epp)
  }

  lemma {:induction false} ImageElsewhere(pages: map<nat, Page>, l: Layout, start: nat, n: nat, k: nat, p: Page)
    requires Has(pages, l, start, n) && !(start <= k < start + n)
    ensures Has(pages[k := p], l, start, n) && Image(pages[k := p], l, start, n) == Image(pages, l, start, n)
  {
    if n > 0 { ImageElsewhere(pages, l, start, n - 1, k, p); }
  }

  /** The next page continues a table whose first `done` entries are in the pages before it. */
  lemma ImageNext(pages: map<nat, Page>, l: Layout, start: nat, n: nat, table: seq<Ent>, left: nat)
    requires Has(pages, l, start, n + 1)
    requires var done := Min(left, n * l.EntPerPg()); var moved := Min(left - done, l.EntPerPg());
             done + moved <= |table| && table[..done] <= Image(pages, l, start, n) &&
             table[done..done + moved] <= Flat(pages[start + n], l.epp)
    ensures var done := Min(left, n * l.EntPerPg()); var moved := Min(left - done, l.EntPerPg());
            done + moved == Min(left, (n + 1) * l.EntPerPg()) &&
            table[..done + moved] <= Image(pages, l, start, n + 1)
  {
    var epg := l.EntPerPg();
    var done := Min(left, n * epg);
    var moved := Min(left - done, epg);
    assert (n + 1) * epg == n * epg + epg;
    assert table[..done + moved] == table[..done] + table[done..done + moved];
    if moved > 0 {
      assert table[..done] == Image(pages, l, start, n);
    }
  }

  class Flash {
    var pages: map<nat, Page>

    /** ftl_nvm_seq_transfer, NVM_TRANS_TO_NVM: the pages stand for the first `left` entries of the
        table, as far as they reach. */
    method Write(l: Layout, start: nat, user: seq<Ent>, pgs: nat, left: nat, buf: Page)
      requires l.Sound() && Fits(buf, l.planes, l.epp) && Min(left, pgs * l.EntPerPg()) <= |user|
      modifies this
      ensures Has(pages, l, start, pgs)
      ensures user[..Min(left, pgs * l.EntPerPg())] <= Image(pages, l, start, pgs)
      ensures forall k :: k in old(pages) && !(start <= k < start + pgs) ==> k in pages && pages[k] == old(pages[k])
    {
      hide Image, Flat, Layout.EntPerPg;
      var io, rest := buf, left;
      for i := 0 to pgs
        invariant Fits(io, l.planes, l.epp) && Has(pages, l, start, i)
        invariant rest == left - Min(left, i * l.EntPerPg())
        invariant Min(left, i * l.EntPerPg()) <= |user| && user[..Min(left, i * l.EntPerPg())] <= Image(pages, l, start, i)
        invariant forall k :: k in old(pages) && !(start <= k < start + i) ==> k in pages && pages[k] == old(pages[k])
      {
        PageRoom(l, i, pgs, left, |user|);
        // With nothing left ftl_nvm_seq_transfer forms an address past the table and copies no entry.
        var base := if rest == 0 then left else i * l.EntPerPg();
        io, rest := Scatter(l, io, user, base, rest);
        ImageElsewhere(pages, l, start, i, start + i, io);
        pages := pages[start + i := io];
        ImageNext(pages, l, start, i, user, left);
      }
    }

    /** NVM_TRANS_FROM_NVM: the table's first `left` entries become what the pages stand for. */
    method Read(l: Layout, start: nat, user: seq<Ent>, pgs: nat, left: nat) returns (r: seq<Ent>)
      requires l.Sound() && Has(pages, l, start, pgs) && Min(left, pgs * l.EntPerPg()) <= |user|
      ensures |r| == |user| && r[..Min(left, pgs * l.EntPerPg())] <= Image(pages, l, start, pgs)
      ensures r[Min(left, pgs * l.EntPerPg())..] == user[Min(left, pgs * l.EntPerPg())..]
    {
      hide Image, Flat, Layout.EntPerPg;
      r := user;
      var rest := left;
      for i := 0 to pgs
        invariant |r| == |user| && rest == left - Min(left, i * l.EntPerPg())
        invariant Min(left, i * l.EntPerPg()) <= |user| && r[..Min(left, i * l.EntPerPg())] <= Image(pages, l, start, i)
        invariant r[Min(left, i * l.EntPerPg())..] == user[Min(left, i * l.EntPerPg())..]
      {
        PageRoom(l, i, pgs, left, |user|);
        var base := if rest == 0 then left else i * l.EntPerPg();
        ghost var done, moved := Min(left, i * l.EntPerPg()), Min(rest, l.EntPerPg());
        ghost var was := r;
        r, rest := Gather(l, pages[start + i], r, base, rest);
        assert r[done + moved..] == was[done..][moved..];
        ImageNext(pages, l, start, i, r, left);
      }
    }

    /** What is read back is what was written, over any number of pages, and nothing else changes. */
    method WriteThenRead(l: Layout, start: nat, user: seq<Ent>, into: seq<Ent>, pgs: nat, left: nat, buf: Page)
      returns (r: seq<Ent>)
      requires l.Sound() && Fits(buf, l.planes, l.epp)
      requires left <= |user| && left <= |into| && left <= pgs * l.EntPerPg()
      modifies this
      ensures |r| == |into| && r[..left] == user[..left] && r[left..] == into[left..]
    {
      Write(l, start, user, pgs, left, buf);
      r := Read(l, start, into, pgs, left);
    }
  }

  lemma PageRoom(l: Layout, i: nat, pgs: nat, left: nat, n: nat)
    requires i < pgs && Min(left, pgs * l.EntPerPg()) <= n
    ensures var done := Min(left, i * l.EntPerPg());
            done + Min(left - done, l.EntPerPg()) == Min(left, (i + 1) * l.EntPerPg()) <= n
  {
    MulMono(i + 1, pgs, l.EntPerPg());
    assert (i + 1) * l.EntPerPg() == i * l.EntPerPg() + l.EntPerPg();
  }
}
