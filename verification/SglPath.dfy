/** A write command on its way from the host to the controller: packing the capsule
    (transport/ox-fabrics/ox-host.c), rewriting its SGL (transport/ox-fabrics/ox-fabrics.c) and
    turning the SGL into PRP entries (core/nvmef_ctrl.c; section 4.4 of NVM Express 1.1). */
module SglPath {
  import opened Bytes
  import opened Sequences

  const SLOTS: nat := 16
  const DESC_SIZE: nat := 16
  const SGL_SIZE: nat := 256
  const CMD_SIZE: nat := 64
  const HEADER_SIZE: nat := 3
  const CAPSULE_MAX: nat := 65507
  const MAX_DATA: nat := 65184
  const PAGE_SIZE: nat := 4096

  datatype Kind = DataBlock | BitBucket | Segment | LastSegment | Unknown

  /** `memory` is subtype NVME_SGL_SUB_ADDR. */
  datatype Desc = Desc(kind: Kind, memory: bool, addr: nat, length: nat)

  /** A cleared slot. */
  const CLEARED := Desc(DataBlock, true, 0, 0)

  /** oxf_get_sgl_desc_length. */
  function Length(d: Desc): nat {
    if d.kind == Unknown then 0 else d.length
  }

  // ----- What a list of descriptors stands for -----

  /** Bytes of the data blocks. */
  function Total(ds: seq<Desc>): nat {
    if ds == [] then 0
    else
      var d := ds[|ds| - 1];
      Total(ds[..|ds| - 1]) + if d.kind == DataBlock then d.length else 0
  }

  ghost predicate Readable(mem: seq<byte>, d: Desc) {
    d.kind == DataBlock ==> d.addr + d.length <= |mem|
  }

  /** The user's bytes, in the order of the data blocks. */
  ghost function Gather(mem: seq<byte>, ds: seq<Desc>): (r: seq<byte>)
    requires forall i :: 0 <= i < |ds| ==> Readable(mem, ds[i])
    ensures |r| == Total(ds)
  {
    if ds == [] then []
    else
      var d := ds[|ds| - 1];
      assert Readable(mem, d);
      Gather(mem, ds[..|ds| - 1]) + if d.kind == DataBlock then mem[d.addr..d.addr + d.length] else []
  }

  lemma {:induction false} TotalMono(ds: seq<Desc>, k: nat)
    requires k <= |ds|
    ensures Total(ds[..k]) <= Total(ds)
  {
    if k < |ds| {
      TotalMono(ds[..|ds| - 1], k);
      assert ds[..|ds| - 1][..k] == ds[..k];
    } else {
      assert ds[..k] == ds;
    }
  }

  /** The addresses of the memory pages of a data block. */
  function PagesAt(addr: nat, n: nat): (r: seq<nat>)
    ensures |r| == n
  {
    seq(n, k requires 0 <= k < n => addr + k * PAGE_SIZE)
  }

  function PagesOf(d: Desc): nat { (d.length + PAGE_SIZE - 1) / PAGE_SIZE }

  /** All of them, in the order of the list. */
  function Prps(ds: seq<Desc>): seq<nat> {
    if ds == [] then []
    else Prps(ds[..|ds| - 1]) + PagesAt(ds[|ds| - 1].addr, PagesOf(ds[|ds| - 1]))
  }

  /** A descriptor nvmef_sgl_to_prp can take pages from. */
  predicate Usable(d: Desc) { d.kind == DataBlock && d.memory }

  // ----- The capsule in the host's memory and in the controller's -----

  class Capsule {
    const sgl: array<Desc>
    const data: array<byte>
    /** The descriptor inside the command itself. */
    var inCommand: Desc

    ghost predicate Valid()
    {
      sgl.Length == SLOTS && data.Length == MAX_DATA
    }

    constructor ()
      ensures Valid() && fresh(sgl) && fresh(data)
    {
      sgl := new Desc[SLOTS](_ => CLEARED);
      data := new byte[MAX_DATA];
      inCommand := CLEARED;
    }

    method CopyIn(off: nat, src: seq<byte>)
      requires Valid() && off + |src| <= MAX_DATA
      modifies data
      ensures data[..off + |src|] == old(data[..off]) + src
    {
      forall i | 0 <= i < |src| {
        data[off + i] := src[i];
      }
    }

    /** The copy of the list behind the command; the other slots are cleared. */
    method CopySgl(ds: seq<Desc>)
      requires Valid() && |ds| <= SLOTS
      modifies sgl
      ensures sgl[..|ds|] == ds
      ensures forall i :: |ds| <= i < SLOTS ==> sgl[i] == CLEARED
    {
      forall i | 0 <= i < SLOTS {
        sgl[i] := if i < |ds| then ds[i] else CLEARED;
      }
    }

    /** oxf_host_prepare_sq_capsule for a write: the size of the capsule, or a size over the limit
        when the data does not fit. */
    method Prepare(mem: seq<byte>, ds: seq<Desc>) returns (bytes: nat)
      requires Valid() && |ds| <= SLOTS
      requires forall i :: 0 <= i < |ds| ==> Readable(mem, ds[i]) && ds[i].length <= 0xFFFF_0000
      modifies sgl, data
      ensures bytes < 0x1_0000_0000
      ensures bytes > CAPSULE_MAX <==> Total(ds) > MAX_DATA
      ensures Total(ds) <= MAX_DATA ==>
                bytes == HEADER_SIZE + CMD_SIZE + (if ds == [] then 0 else SGL_SIZE) + Total(ds) &&
                sgl[..|ds|] == ds && (forall i :: |ds| <= i < SLOTS ==> sgl[i] == CLEARED) &&
                data[..Total(ds)] == Gather(mem, ds)
    {
      bytes := HEADER_SIZE + CMD_SIZE + if |ds| == 0 then 0 else SGL_SIZE;
      CopySgl(ds);
      var offset := 0;
      for i := 0 to |ds|
        invariant offset == Total(ds[..i]) <= MAX_DATA
        invariant bytes == HEADER_SIZE + CMD_SIZE + (if ds == [] then 0 else SGL_SIZE) + offset
        invariant data[..offset] == Gather(mem, ds[..i])
        invariant sgl[..|ds|] == ds && forall i :: |ds| <= i < SLOTS ==> sgl[i] == CLEARED
      {
        var d := ds[i];
        assert ds[..i + 1][..i] == ds[..i];
        assert Readable(mem, ds[i]);
        if d.kind == DataBlock {
          bytes := bytes + d.length;
          if bytes > CAPSULE_MAX {
            TotalMono(ds, i + 1);
            return;
          }
          CopyIn(offset, mem[d.addr..d.addr + d.length]);
          offset := offset + d.length;
        }
      }
      assert ds[..|ds|] == ds;
    }

    /** The capsule as it arrives at the other side: `bytes` of it, header included. */
    method Receive(from: Capsule, bytes: nat)
      requires Valid() && from.Valid() && from.sgl != sgl && from.data != data
      requires HEADER_SIZE + CMD_SIZE + SGL_SIZE <= bytes <= CAPSULE_MAX
      modifies sgl, data
      ensures sgl[..] == from.sgl[..]
      ensures var n := bytes - HEADER_SIZE - CMD_SIZE - SGL_SIZE; data[..n] == from.data[..n]
    {
      forall i | 0 <= i < SLOTS {
        sgl[i] := from.sgl[i];
      }
      forall i | 0 <= i < bytes - HEADER_SIZE - CMD_SIZE - SGL_SIZE {
        data[i] := from.data[i];
      }
    }

    /** oxf_fabrics_set_sgl for a write: the data blocks now name consecutive pieces of the capsule's
        own data area, which starts at `base`; the descriptor in the command points to the list at
        `sglAddr`. A segment descriptor in the list is refused. */
    method SetSgl(capsSz: nat, base: nat, sglAddr: nat) returns (bytes: nat)
      requires Valid()
      modifies sgl, this`inCommand
      ensures capsSz <= CMD_SIZE ==> bytes == 0 && forall i :: 0 <= i < SLOTS ==> sgl[i] == CLEARED
      ensures var ds := old(sgl[..]); var n := Live(ds);
              capsSz > CMD_SIZE && (forall i :: 0 <= i < n ==> ds[i].kind in {DataBlock, BitBucket}) ==>
                bytes == Total(ds[..n]) && sgl[..n] == Placed(ds[..n], base) && sgl[n..] == ds[n..] &&
                inCommand == Desc(LastSegment, true, sglAddr, n * DESC_SIZE)
      ensures var ds := old(sgl[..]);
              capsSz > CMD_SIZE && (exists i :: 0 <= i < Live(ds) && ds[i].kind !in {DataBlock, BitBucket}) ==>
                bytes == 0 && inCommand == old(inCommand)
    {
      if capsSz <= CMD_SIZE {
        forall i | 0 <= i < SLOTS {
          sgl[i] := CLEARED;
        }
        return 0;
      }
      ghost var ds := sgl[..];
      var i, ok;
      bytes, i, ok := PlaceAll(base);
      if !ok {
        return 0;
      }
      inCommand := Desc(LastSegment, true, sglAddr, i * DESC_SIZE);
      PlacedPrefix(ds, base, i);
      assert sgl[..i] == Placed(ds[..i], base);
      assert sgl[i..] == ds[i..];
    }

    /** The loop over the list: it ends at an empty descriptor, after the last slot, or at a descriptor
        it does not take. */
    method PlaceAll(base: nat) returns (bytes: nat, i: nat, ok: bool)
      requires Valid()
      modifies sgl
      ensures var ds := old(sgl[..]);
              ok <==> forall j :: 0 <= j < Live(ds) ==> ds[j].kind in {DataBlock, BitBucket}
      ensures ok ==> i == Live(old(sgl[..])) && bytes == Total(old(sgl[..])[..i])
      ensures ok ==> forall j :: 0 <= j < SLOTS ==>
                sgl[j] == if j < i then PlaceAt(old(sgl[..]), base, j) else old(sgl[..])[j]
    {
      bytes, i := 0, 0;
      var offset := base;
      ghost var ds := sgl[..];
      ghost var n := Live(ds);
      LiveNext(ds, 0);
      while i < SLOTS && Length(sgl[i]) != 0
        invariant 0 <= i <= SLOTS && i <= n
        invariant forall j :: i <= j < SLOTS ==> sgl[j] == ds[j]
        invariant (i < SLOTS && Length(ds[i]) != 0) == (i < n)
        invariant forall j :: 0 <= j < i ==> ds[j].kind in {DataBlock, BitBucket}
        invariant bytes == Total(ds[..i]) && offset == base + bytes
        invariant forall j :: 0 <= j < i ==> sgl[j] == PlaceAt(ds, base, j)
      {
        assert ds[..i + 1][..i] == ds[..i];
        if sgl[i].kind != BitBucket {
          if sgl[i].kind != DataBlock {
            return 0, i, false;
          }
          sgl[i] := sgl[i].(memory := true, addr := offset);
          offset := offset + sgl[i].length;
          bytes := bytes + sgl[i].length;
        }
        i := i + 1;
        LiveNext(ds, i);
      }
      ok := true;
    }
  }

  /** How many descriptors come before the first empty one. */
  function Live(ds: seq<Desc>): (n: nat)
    ensures n <= |ds|
    ensures forall i :: 0 <= i < n ==> Length(ds[i]) != 0
    ensures n < |ds| ==> Length(ds[n]) == 0
  {
    if ds == [] || Length(ds[0]) == 0 then 0 else 1 + Live(ds[1..])
  }

  lemma LiveNext(ds: seq<Desc>, i: nat)
    requires i <= Live(ds)
    ensures (i < |ds| && Length(ds[i]) != 0) == (i < Live(ds))
  {
  }

  /** The j-th descriptor when the data blocks are laid out one behind the other from `base`. */
  function PlaceAt(ds: seq<Desc>, base: nat, j: nat): Desc
    requires j < |ds|
  {
    if ds[j].kind == DataBlock then ds[j].(memory := true, addr := base + Total(ds[..j])) else ds[j]
  }

  function Placed(ds: seq<Desc>, base: nat): (r: seq<Desc>)
    ensures |r| == |ds|
  {
    seq(|ds|, j requires 0 <= j < |ds| => PlaceAt(ds, base, j))
  }

  lemma PlacedPrefix(ds: seq<Desc>, base: nat, n: nat)
    requires n <= |ds|
    ensures forall j :: 0 <= j < n ==> Placed(ds[..n], base)[j] == PlaceAt(ds, base, j)
    ensures Placed(ds[..n], base) == Placed(ds, base)[..n]
  {
    forall j | 0 <= j < n ensures Placed(ds[..n], base)[j] == PlaceAt(ds, base, j) {
      assert ds[..n][..j] == ds[..j];
    }
  }

  /** nvmef_sgl_to_prp behind the one hop over the descriptor in the command: `sgl` is what is stored
      at that address. The list must cover the blocks asked for (beyond it nvmef_sgl_to_prp reads
      whatever its local array held). */
  method SglToPrp(nlb: nat, first: Desc, sgl: seq<Desc>) returns (r: Option<seq<nat>>)
    requires first.kind == LastSegment && |sgl| == SLOTS
    requires first.length <= SGL_SIZE ==> nlb <= |Prps(sgl[..first.length / DESC_SIZE])|
    requires forall i :: 0 <= i < |sgl| ==> sgl[i].kind != Segment && sgl[i].kind != LastSegment
    ensures var ok := first.memory && first.length != 0 && first.length % DESC_SIZE == 0 && first.length <= SGL_SIZE;
            var ds := if ok then sgl[..first.length / DESC_SIZE] else [];
            r.Some? <==> nlb == 0 || (ok && forall i :: 0 <= i < Needed(ds, nlb) ==> Usable(ds[i]))
    ensures r.Some? && nlb > 0 ==> r.value == Prps(sgl[..Needed(sgl[..first.length / DESC_SIZE], nlb)])
    ensures r.Some? ==> nlb <= |r.value|
  {
    hide Needed, PagesOf, PagesAt;
    if nlb == 0 { return Some([]); }
    if !first.memory || first.length == 0 || first.length % DESC_SIZE != 0 { return None; }
    if first.length > SGL_SIZE { return None; }
    var ds := sgl[..first.length / DESC_SIZE];
    var prps, i := [], 0;
    NeededNext(ds, nlb, 0);
    while |prps| < nlb
      invariant 0 <= i <= |ds| && i <= Needed(ds, nlb)
      invariant prps == Prps(ds[..i])
      invariant i == Needed(ds, nlb) <==> nlb <= |prps|
      invariant forall j :: 0 <= j < i ==> Usable(ds[j])
      decreases |ds| - i
    {
      NeededNext(ds, nlb, i);
      if !Usable(ds[i]) { return None; }
      prps := AddPages(prps, ds[i]);
      PrpsSnoc(ds, i);
      i := i + 1;
      NeededNext(ds, nlb, i);
    }
    assert sgl[..Needed(ds, nlb)] == ds[..i];
    return Some(prps);
  }

  /** The inner loop of nvmef_sgl_to_prp. */
  method AddPages(prps: seq<nat>, d: Desc) returns (r: seq<nat>)
    ensures r == prps + PagesAt(d.addr, PagesOf(d))
  {
    r := prps;
    var offset := 0;
    ghost var k := 0;
    while offset < d.length
      invariant offset == k * PAGE_SIZE && 0 <= k <= PagesOf(d)
      invariant r == prps + PagesAt(d.addr, k)
      decreases PagesOf(d) - k
    {
      r := r + [d.addr + offset];
      offset := offset + PAGE_SIZE;
      k := k + 1;
    }
  }

  lemma PrpsSnoc(ds: seq<Desc>, i: nat)
    requires i < |ds|
    ensures Prps(ds[..i + 1]) == Prps(ds[..i]) + PagesAt(ds[i].addr, PagesOf(ds[i]))
  {
    assert ds[..i + 1][..i] == ds[..i];
  }

  /** How many descriptors it takes to reach `nlb` pages. */
  ghost function Needed(ds: seq<Desc>, nlb: nat): (n: nat)
    ensures n <= |ds|
  {
    if ds == [] || (|Prps(ds[..|ds| - 1])| < nlb) then |ds| else Needed(ds[..|ds| - 1], nlb)
  }

  lemma {:induction false} NeededNext(ds: seq<Desc>, nlb: nat, i: nat)
    requires i <= |ds| && nlb <= |Prps(ds)| && 0 < nlb
    ensures nlb <= |Prps(ds[..i])| <==> Needed(ds, nlb) <= i
    decreases |ds|
  {
    if i == |ds| {
      assert ds[..i] == ds;
    } else {
      var m := |ds| - 1;
      var es := ds[..m];
      assert es[..i] == ds[..i];
      if |Prps(es)| < nlb {
        PrpsMono(es, i);
      } else {
        NeededNext(es, nlb, i);
      }
    }
  }

  lemma {:induction false} PrpsMono(ds: seq<Desc>, k: nat)
    requires k <= |ds|
    ensures |Prps(ds[..k])| <= |Prps(ds)|
  {
    if k < |ds| {
      PrpsMono(ds[..|ds| - 1], k);
      assert ds[..|ds| - 1][..k] == ds[..k];
    } else {
      assert ds[..k] == ds;
    }
  }
}
