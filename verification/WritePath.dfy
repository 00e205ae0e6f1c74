/** From the user's buffer to the controller's pages: nvmeh_rw (host/nvme_host.c) splits a request
    into commands, and each command's capsule is packed, rewritten and mapped. */
module WritePath {
  import opened Arithmetic
  import opened Bytes
  import opened Sequences
  import opened SglPath

  const BLK_PER_CMD: nat := MAX_DATA / PAGE_SIZE
  const CMD_BYTES: nat := BLK_PER_CMD * PAGE_SIZE
  const MAX_BATCH: nat := 260

  /** A command and the piece of the user's buffer its descriptor names; `nlb` is zero-based. */
  datatype Cmd = Cmd(slba: nat, nlb: nat, off: nat, len: nat)

  // ----- The descriptors of one command -----

  ghost predicate Aligned(d: Desc) {
    d.kind == DataBlock && 0 < d.length && d.length % PAGE_SIZE == 0
  }

  ghost predicate AllAligned(ds: seq<Desc>) {
    forall i :: 0 <= i < |ds| ==> Aligned(ds[i])
  }

  lemma PagesAtJoin(a: nat, m: nat, n: nat)
    ensures PagesAt(a, m) + PagesAt(a + m * PAGE_SIZE, n) == PagesAt(a, m + n)
  {
  }

  lemma WholePages(t: nat, n: nat)
    requires t % PAGE_SIZE == 0 && n % PAGE_SIZE == 0
    ensures (t + n) % PAGE_SIZE == 0 && (n + PAGE_SIZE - 1) / PAGE_SIZE == n / PAGE_SIZE
    ensures (t + n) / PAGE_SIZE == t / PAGE_SIZE + n / PAGE_SIZE && t / PAGE_SIZE * PAGE_SIZE == t
  {
  }

  /** Data blocks of whole pages, laid out one behind the other, give consecutive pages. */
  lemma {:induction false} PlacedPrps(ds: seq<Desc>, base: nat)
    requires AllAligned(ds)
    ensures Total(ds) % PAGE_SIZE == 0
    ensures Prps(Placed(ds, base)) == PagesAt(base, Total(ds) / PAGE_SIZE)
    ensures forall i :: 0 <= i < |ds| ==> Usable(Placed(ds, base)[i])
  {
    if ds != [] {
      hide PagesAt;
      var n := |ds| - 1;
      var es, d, p := ds[..n], ds[n], Placed(ds, base);
      assert Aligned(d);
      PlacedPrps(es, base);
      assert p[n] == d.(memory := true, addr := base + Total(es));
      PrpsSnoc(p, n);
      PlacedPrefix(ds, base, n);
      assert p[..n + 1] == p;
      WholePages(Total(es), d.length);
      PagesAtJoin(base, Total(es) / PAGE_SIZE, PagesOf(d));
    } else {
      assert PagesAt(base, 0) == [];
    }
  }

  lemma PlacedNeeded(ds: seq<Desc>, base: nat)
    requires AllAligned(ds) && ds != []
    ensures 0 < Total(ds) / PAGE_SIZE == |Prps(Placed(ds, base))|
    ensures Needed(Placed(ds, base), Total(ds) / PAGE_SIZE) == |ds|
  {
    var n := |ds| - 1;
    assert Aligned(ds[n]);
    PlacedPrps(ds, base);
    PlacedPrps(ds[..n], base);
    PlacedPrefix(ds, base, n);
  }

  lemma {:induction false} LiveAll(ds: seq<Desc>, n: nat)
    requires n <= |ds| && AllAligned(ds[..n]) && (n < |ds| ==> Length(ds[n]) == 0)
    ensures Live(ds) == n
  {
    if 0 < n {
      assert Aligned(ds[..n][0]);
      assert ds[1..][..n - 1] == ds[..n][1..];
      LiveAll(ds[1..], n - 1);
    }
  }

  /** One write command, from oxf_host_submit_io to nvmef_sgl_to_prp. A list that is too long or does
      not fit the capsule is refused; otherwise PRP k is the address, in the controller's copy of the
      capsule, of the bytes of the k-th block of the user's data. */
  method SendWrite(host: Capsule, target: Capsule, mem: seq<byte>, ds: seq<Desc>, base: nat, sglAddr: nat)
    returns (r: Option<seq<nat>>)
    requires host.Valid() && target.Valid() && host.sgl != target.sgl && host.data != target.data
    requires ds != [] && AllAligned(ds)
    requires forall i :: 0 <= i < |ds| ==> Readable(mem, ds[i]) && ds[i].length <= 0xFFFF_0000
    modifies host.sgl, host.data, target.sgl, target.data, target`inCommand
    ensures r.Some? <==> |ds| <= SLOTS && Total(ds) <= MAX_DATA
    ensures r.Some? ==> |r.value| == Total(ds) / PAGE_SIZE && forall k :: 0 <= k < |r.value| ==>
              Lands(r.value[k], base, target.data[..], Gather(mem, ds), k)
  {
    hide Lands, Total, Gather, Prps, Placed, Needed;
    var ok := Deliver(host, target, mem, ds, base, sglAddr);
    if !ok {
      return None;
    }
    r := MapPlaced(ds, base, target.inCommand, target.sgl[..]);
    forall k | 0 <= k < |r.value| ensures Lands(r.value[k], base, target.data[..], Gather(mem, ds), k) {
      assert target.data[..Total(ds)] <= target.data[..];
      LandsAt(base, target.data[..], Gather(mem, ds), k);
    }
  }

  /** The capsule is packed, sent and its SGL rewritten. */
  method Deliver(host: Capsule, target: Capsule, mem: seq<byte>, ds: seq<Desc>, base: nat, sglAddr: nat)
    returns (ok: bool)
    requires host.Valid() && target.Valid() && host.sgl != target.sgl && host.data != target.data
    requires ds != [] && AllAligned(ds)
    requires forall i :: 0 <= i < |ds| ==> Readable(mem, ds[i]) && ds[i].length <= 0xFFFF_0000
    modifies host.sgl, host.data, target.sgl, target.data, target`inCommand
    ensures ok <==> |ds| <= SLOTS && Total(ds) <= MAX_DATA
    ensures ok ==> target.sgl[..|ds|] == Placed(ds, base) && KindsKept(target.sgl[..])
    ensures ok ==> target.inCommand == Desc(LastSegment, true, sglAddr, |ds| * DESC_SIZE)
    ensures ok ==> target.data[..Total(ds)] == Gather(mem, ds)
  {
    hide Total, Gather, Placed, KindsKept;
    if |ds| * DESC_SIZE > SGL_SIZE {
      return false;
    }
    var bytes := host.Prepare(mem, ds);
    if bytes > CAPSULE_MAX {
      return false;
    }
    target.Receive(host, bytes);
    ghost var sent := target.sgl[..];
    assert sent[..|ds|] == ds;
    LiveAll(sent, |ds|);
    assert forall i :: 0 <= i < |ds| ==> Aligned(ds[i]) && sent[i] == ds[i];
    var total := target.SetSgl(bytes - HEADER_SIZE, base, sglAddr);
    PlacedKinds(ds, base, sent, target.sgl[..]);
    return true;
  }

  /** The controller's side of a rewritten list: consecutive pages of the data area. */
  method MapPlaced(ds: seq<Desc>, base: nat, first: Desc, sgl: seq<Desc>) returns (r: Option<seq<nat>>)
    requires ds != [] && AllAligned(ds) && |ds| <= SLOTS == |sgl| && KindsKept(sgl)
    requires sgl[..|ds|] == Placed(ds, base)
    requires first.kind == LastSegment && first.memory && first.length == |ds| * DESC_SIZE
    ensures r == Some(PagesAt(base, Total(ds) / PAGE_SIZE))
  {
    hide Total, Placed, Needed, Prps;
    PlacedNeeded(ds, base);
    PlacedPrps(ds, base);
    assert first.length / DESC_SIZE == |ds|;
    r := SglToPrp(Total(ds) / PAGE_SIZE, first, sgl);
  }

  ghost predicate KindsKept(s: seq<Desc>) {
    forall i :: 0 <= i < |s| ==> s[i].kind != Segment && s[i].kind != LastSegment
  }

  lemma PlacedKinds(ds: seq<Desc>, base: nat, sent: seq<Desc>, s: seq<Desc>)
    requires AllAligned(ds) && |ds| <= |sent| == |s| && s[..|ds|] == Placed(ds, base) && s[|ds|..] == sent[|ds|..]
    requires forall i :: |ds| <= i < |sent| ==> sent[i] == CLEARED
    ensures KindsKept(s)
  {
    PlacedPrps(ds, base);
    forall i | 0 <= i < |s| ensures s[i].kind != Segment && s[i].kind != LastSegment {
      if i < |ds| {
        assert s[i] == s[..|ds|][i] && Usable(Placed(ds, base)[i]);
      } else {
        assert s[i] == s[|ds|..][i - |ds|];
      }
    }
  }

  /** Address `prp` holds the k-th block of `user`, in a data area that starts at `base`. */
  ghost predicate Lands(prp: nat, base: nat, data: seq<byte>, user: seq<byte>, k: nat) {
    base <= prp && prp - base + PAGE_SIZE <= |data| && (k + 1) * PAGE_SIZE <= |user| &&
    data[prp - base..prp - base + PAGE_SIZE] == user[k * PAGE_SIZE..(k + 1) * PAGE_SIZE]
  }

  lemma LandsAt(base: nat, data: seq<byte>, user: seq<byte>, k: nat)
    requires k < |user| / PAGE_SIZE && user <= data
    ensures Lands(base + k * PAGE_SIZE, base, data, user, k)
  {
    var lo, hi := k * PAGE_SIZE, (k + 1) * PAGE_SIZE;
    assert hi <= |user|;
    assert data[lo..hi] == data[..|user|][lo..hi];
  }

  // ----- Splitting a request -----

  /** Block `i` of command `c` is block `j` of the request. */
  ghost predicate Carries(c: Cmd, i: nat, slba: nat, j: nat) {
    i <= c.nlb && c.slba + i == slba + j && c.off + i * PAGE_SIZE == j * PAGE_SIZE
  }

  /** Each block of the request is in exactly one command, at its place in the LBA range and in the
      buffer, and no command has any other block. */
  ghost predicate Tiles(cmds: seq<Cmd>, slba: nat, size: nat) {
    (forall j :: 0 <= j < size / PAGE_SIZE ==>
       j / BLK_PER_CMD < |cmds| && Carries(cmds[j / BLK_PER_CMD], j % BLK_PER_CMD, slba, j)) &&
    (forall k :: 0 <= k < |cmds| ==> Inside(cmds[k], k, slba, size))
  }

  /** Command k has at most BLK_PER_CMD blocks, those of the request from block k * BLK_PER_CMD on. */
  ghost predicate Inside(c: Cmd, k: nat, slba: nat, size: nat) {
    c.nlb < BLK_PER_CMD && c.len == (c.nlb + 1) * PAGE_SIZE && c.off + c.len <= size &&
    forall i: nat :: i <= c.nlb ==> Own(c, i, k, slba)
  }

  ghost predicate Own(c: Cmd, i: nat, k: nat, slba: nat) { Carries(c, i, slba, k * BLK_PER_CMD + i) }

  /** The block count is kept on 32 bits. */
  function Blocks(size: nat): nat { (size / PAGE_SIZE) % 0x1_0000_0000 }

  function CmdCount(nblk: nat): nat {
    nblk / BLK_PER_CMD + if nblk % BLK_PER_CMD != 0 then 1 else 0
  }

  ghost predicate Accepted(size: nat) {
    size % PAGE_SIZE == 0 && size != 0 && CmdCount(Blocks(size)) <= MAX_BATCH
  }

  /** The k-th command of a request. */
  function NthCmd(slba: nat, size: nat, k: nat): Cmd
    requires k * CMD_BYTES < size && PAGE_SIZE <= size - k * CMD_BYTES
  {
    var len := Min(CMD_BYTES, size - k * CMD_BYTES);
    Cmd(slba + k * BLK_PER_CMD, len / PAGE_SIZE - 1, k * CMD_BYTES, len)
  }

  /** The loop of nvmeh_rw when every submission succeeds. The commands tile the request exactly when
      its block count fits 32 bits. */
  method Split(size: nat, slba: nat) returns (r: Option<seq<Cmd>>)
    ensures r.Some? <==> Accepted(size)
    ensures r.Some? ==> |r.value| <= MAX_BATCH && forall k :: 0 <= k < |r.value| ==> IsNth(r.value[k], slba, size, k)
    ensures r.Some? ==> (Tiles(r.value, slba, size) <==> size / PAGE_SIZE < 0x1_0000_0000)
  {
    hide Tiles;
    if size % PAGE_SIZE != 0 || size == 0 { return None; }
    var nblk := (size / PAGE_SIZE) % 0x1_0000_0000;
    var nCmd := nblk / BLK_PER_CMD;
    nCmd := nCmd + if nblk % BLK_PER_CMD != 0 then 1 else 0;
    if nCmd > MAX_BATCH { return None; }
    var cmds := Cut(size, slba, nCmd);
    SplitTiles(cmds, slba, size);
    return Some(cmds);
  }

  method Cut(size: nat, slba: nat, nCmd: nat) returns (cmds: seq<Cmd>)
    requires size % PAGE_SIZE == 0 && nCmd == CmdCount(Blocks(size))
    ensures |cmds| == nCmd && forall m :: 0 <= m < |cmds| ==> IsNth(cmds[m], slba, size, m)
  {
    hide CmdCount, Blocks, IsNth;
    cmds := [];
    var off, sz := 0, CMD_BYTES;
    for k := 0 to nCmd
      invariant |cmds| == k
      invariant k < nCmd ==> sz == CMD_BYTES && off == k * CMD_BYTES
      invariant forall m :: 0 <= m < k ==> IsNth(cmds[m], slba, size, m)
    {
      CmdStarts(size, k);
      if off + sz > size {
        sz := size - off;
      }
      IsNthIntro(slba, size, k);
      cmds := cmds + [Cmd(slba + k * BLK_PER_CMD, sz / PAGE_SIZE - 1, off, sz)];
      off := off + sz;
    }
  }

  lemma IsNthIntro(slba: nat, size: nat, k: nat)
    requires k * CMD_BYTES < size && PAGE_SIZE <= size - k * CMD_BYTES
    ensures var sz := if k * CMD_BYTES + CMD_BYTES > size then size - k * CMD_BYTES else CMD_BYTES;
            IsNth(Cmd(slba + k * BLK_PER_CMD, sz / PAGE_SIZE - 1, k * CMD_BYTES, sz), slba, size, k)
  {
  }

  /** A command that the count allows starts inside the buffer, and only the last one is short. */
  lemma CmdStarts(size: nat, k: nat)
    requires size % PAGE_SIZE == 0 && k < CmdCount(Blocks(size))
    ensures k * CMD_BYTES < size && PAGE_SIZE <= size - k * CMD_BYTES
    ensures k + 1 < CmdCount(Blocks(size)) ==> (k + 1) * CMD_BYTES <= size
  {
    var nblk := size / PAGE_SIZE;
    assert Blocks(size) <= nblk;
  }

  ghost predicate IsNth(c: Cmd, slba: nat, size: nat, k: nat) {
    k * CMD_BYTES < size && PAGE_SIZE <= size - k * CMD_BYTES && c == NthCmd(slba, size, k)
  }

  lemma NthInside(c: Cmd, slba: nat, size: nat, k: nat)
    requires IsNth(c, slba, size, k) && size % PAGE_SIZE == 0
    ensures Inside(c, k, slba, size)
  {
    var nblk := size / PAGE_SIZE;
    var m := Min(BLK_PER_CMD, nblk - k * BLK_PER_CMD);
    assert c.len == m * PAGE_SIZE && c.nlb == m - 1;
  }

  lemma InsideBounds(c: Cmd, k: nat, slba: nat, size: nat)
    requires Inside(c, k, slba, size)
    ensures c.nlb < BLK_PER_CMD && c.len == (c.nlb + 1) * PAGE_SIZE && c.off + c.len <= size
  {
  }

  lemma NthCarries(c: Cmd, slba: nat, size: nat, j: nat)
    requires IsNth(c, slba, size, j / BLK_PER_CMD) && size % PAGE_SIZE == 0 && j < size / PAGE_SIZE
    ensures Carries(c, j % BLK_PER_CMD, slba, j)
  {
  }

  lemma CmdOf(j: nat, nblk: nat)
    requires j < nblk
    ensures j / BLK_PER_CMD < CmdCount(nblk)
  {
  }

  lemma SplitTiles(cmds: seq<Cmd>, slba: nat, size: nat)
    requires Accepted(size) && |cmds| == CmdCount(Blocks(size))
    requires forall m :: 0 <= m < |cmds| ==> IsNth(cmds[m], slba, size, m)
    ensures Tiles(cmds, slba, size) <==> size / PAGE_SIZE < 0x1_0000_0000
  {
    if size / PAGE_SIZE < 0x1_0000_0000 {
      SplitCovers(cmds, slba, size);
    } else {
      SplitMisses(cmds, slba, size);
    }
  }

  lemma SplitCovers(cmds: seq<Cmd>, slba: nat, size: nat)
    requires size % PAGE_SIZE == 0 && |cmds| == CmdCount(size / PAGE_SIZE)
    requires forall m :: 0 <= m < |cmds| ==> IsNth(cmds[m], slba, size, m)
    ensures Tiles(cmds, slba, size)
  {
    hide IsNth, Inside, Carries, CmdCount;
    var nblk := size / PAGE_SIZE;
    forall j | 0 <= j < nblk
      ensures j / BLK_PER_CMD < |cmds| && Carries(cmds[j / BLK_PER_CMD], j % BLK_PER_CMD, slba, j)
    {
      CmdOf(j, nblk);
      NthCarries(cmds[j / BLK_PER_CMD], slba, size, j);
    }
    forall k | 0 <= k < |cmds| ensures Inside(cmds[k], k, slba, size) {
      NthInside(cmds[k], slba, size, k);
    }
  }

  lemma SplitMisses(cmds: seq<Cmd>, slba: nat, size: nat)
    requires |cmds| <= MAX_BATCH && size / PAGE_SIZE >= 0x1_0000_0000
    ensures !Tiles(cmds, slba, size)
  {
    var j := size / PAGE_SIZE - 1;
    assert j / BLK_PER_CMD >= |cmds|;
  }

  /** Requests of 2^44 bytes and a block more are accepted, as no command at all and as a single one. */
  lemma WrappedExample()
    ensures var size := 0x1000_0000_0000;
            && size / PAGE_SIZE >= 0x1_0000_0000
            && Accepted(size) && CmdCount(Blocks(size)) == 0
            && Accepted(size + PAGE_SIZE) && CmdCount(Blocks(size + PAGE_SIZE)) == 1
  {
  }

  /** What the controller sees of one command: its first LBA, the PRP entries and the data area. */
  datatype Landed = Landed(slba: nat, prps: seq<nat>, data: seq<byte>)

  /** A whole write request: block j of the user's buffer is what PRP j % 15 of command j / 15
      addresses, if there is such a command, and that command carries it to LBA slba + j. When the
      block count fits 32 bits there is one for every block. */
  method WriteRequest(mem: seq<byte>, buf: nat, size: nat, slba: nat, base: nat, sglAddr: nat)
    returns (r: Option<seq<Landed>>)
    requires buf + size <= |mem|
    ensures r.Some? <==> Accepted(size)
    ensures r.Some? ==> forall j :: 0 <= j < size / PAGE_SIZE && j / BLK_PER_CMD < |r.value| ==>
              BlockLands(r.value[j / BLK_PER_CMD], j % BLK_PER_CMD, base, mem, buf, slba, j)
    ensures r.Some? && size / PAGE_SIZE < 0x1_0000_0000 ==>
              forall j :: 0 <= j < size / PAGE_SIZE ==> j / BLK_PER_CMD < |r.value|
  {
    hide Lands, BlockLands, Carries, Inside, IsNth, Blocks, CmdCount;
    var cmds := Split(size, slba);
    if cmds == None { return None; }
    var out := [];
    for k := 0 to |cmds.value|
      invariant |out| == k
      invariant forall j :: 0 <= j < size / PAGE_SIZE && j / BLK_PER_CMD < k ==>
        BlockLands(out[j / BLK_PER_CMD], j % BLK_PER_CMD, base, mem, buf, slba, j)
    {
      var c := cmds.value[k];
      NthInside(c, slba, size, k);
      InsideBounds(c, k, slba, size);
      var l := SendCmd(mem, buf, c, base, sglAddr);
      forall j | 0 <= j < size / PAGE_SIZE && j / BLK_PER_CMD == k
        ensures BlockLands(l, j % BLK_PER_CMD, base, mem, buf, slba, j)
      {
        NthCarries(c, slba, size, j);
        FromRequest(l, c, base, mem, buf, slba, j % BLK_PER_CMD, j);
      }
      out := out + [l];
    }
    return Some(out);
  }

  /** One command of the request, with the one descriptor oxf_host_alloc_sgl makes for it. */
  method SendCmd(mem: seq<byte>, buf: nat, c: Cmd, base: nat, sglAddr: nat) returns (l: Landed)
    requires buf + c.off + c.len <= |mem| && c.nlb < BLK_PER_CMD && c.len == (c.nlb + 1) * PAGE_SIZE
    ensures l.slba == c.slba && |l.prps| == c.nlb + 1
    ensures forall i :: 0 <= i < |l.prps| ==>
              Lands(l.prps[i], base, l.data, mem[buf + c.off..buf + c.off + c.len], i)
  {
    hide Lands;
    var ds := [Desc(DataBlock, true, buf + c.off, c.len)];
    var host := new Capsule();
    var target := new Capsule();
    OneDesc(mem, ds);
    var prps := SendWrite(host, target, mem, ds, base, sglAddr);
    l := Landed(c.slba, prps.value, target.data[..]);
  }

  lemma OneDesc(mem: seq<byte>, ds: seq<Desc>)
    requires |ds| == 1 && Readable(mem, ds[0]) && ds[0].kind == DataBlock
    ensures Total(ds) == ds[0].length && Gather(mem, ds) == mem[ds[0].addr..ds[0].addr + ds[0].length]
  {
    assert ds[..0] == [];
    assert Total(ds[..0]) == 0 && Gather(mem, ds[..0]) == [];
  }

  ghost predicate BlockLands(l: Landed, i: nat, base: nat, mem: seq<byte>, buf: nat, slba: nat, j: nat) {
    l.slba + i == slba + j && i < |l.prps| && base <= l.prps[i] && buf + (j + 1) * PAGE_SIZE <= |mem| &&
    l.prps[i] - base + PAGE_SIZE <= |l.data| &&
    l.data[l.prps[i] - base..l.prps[i] - base + PAGE_SIZE] == mem[buf + j * PAGE_SIZE..buf + (j + 1) * PAGE_SIZE]
  }

  lemma FromRequest(l: Landed, c: Cmd, base: nat, mem: seq<byte>, buf: nat, slba: nat, i: nat, j: nat)
    requires Carries(c, i, slba, j) && l.slba == c.slba && c.len == (c.nlb + 1) * PAGE_SIZE
    requires buf + c.off + c.len <= |mem| && |l.prps| == c.nlb + 1
    requires forall i :: 0 <= i < |l.prps| ==>
               Lands(l.prps[i], base, l.data, mem[buf + c.off..buf + c.off + c.len], i)
    ensures BlockLands(l, i, base, mem, buf, slba, j)
  {
    var lo, hi := i * PAGE_SIZE, (i + 1) * PAGE_SIZE;
    assert hi <= c.len && c.off + hi == (j + 1) * PAGE_SIZE;
    SliceSlice(mem, buf + c.off, buf + c.off + c.len, lo, hi);
  }

  lemma SliceSlice(s: seq<byte>, a: nat, b: nat, lo: nat, hi: nat)
    requires a <= b <= |s| && lo <= hi <= b - a
    ensures s[a..b][lo..hi] == s[a + lo..a + hi]
  {
    var x, y := s[a..b][lo..hi], s[a + lo..a + hi];
    assert forall k :: 0 <= k < hi - lo ==> x[k] == y[k];
  }
}
