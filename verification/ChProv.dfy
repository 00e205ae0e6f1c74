/** The channel provisioner of OX-Block (ftl/ox-app/block/oxb-ch-prov.c): blocks are opened,
    handed out page by page over three round-robin lines, closed, put and released by a
    checkpoint. Erases may fail in any pattern. */
module ChProv {
  import opened Arithmetic
  import opened Sequences
  import opened ProvisionLun
  import opened ProvisionLog

  /** struct ch_prov_line: the first `nblks` slots are in use. */
  datatype Line = Line(nblks: nat, current: nat, vblks: seq<Blk>)

  ghost predicate LunsOk(g: Geometry, luns: seq<Lun>) {
    && g.Sound() && |luns| == g.luns
    && forall i :: 0 <= i < |luns| ==> |luns[i].md| == g.blocks && LunInv(g.pages, g.blocks, luns[i])
  }

  /** Every open block is in the open list that its flags name. */
  ghost predicate LunsTyped(luns: seq<Lun>) {
    forall i :: 0 <= i < |luns| ==> Typed(luns[i])
  }

  lemma TypedUpdate(luns: seq<Lun>, i: nat, l: Lun)
    requires LunsTyped(luns) && i < |luns| && Typed(l)
    ensures LunsTyped(luns[i := l])
  {
  }

  ghost predicate InOpen(luns: seq<Lun>, t: nat, b: Blk) {
    && b.lun < |luns| && t < |luns[b.lun].open|
    && b.blk < |luns[b.lun].md| && b.blk in luns[b.lun].open[t]
  }

  /** The log is ordered and the metadata of every open block names its next page. */
  ghost predicate LogOk(g: Geometry, luns: seq<Lun>, log: seq<Event>, start: Blk -> nat)
    requires LunsOk(g, luns)
  {
    && Ordered(g.pages, start, log)
    && forall t, b :: 0 <= t < LINES && InOpen(luns, t, b) ==>
         NextPg(start, log, b) == luns[b.lun].md[b.blk].currentPg
  }

  /** The blocks of a line are distinct and open in the line's type. */
  ghost predicate LineOk(g: Geometry, luns: seq<Lun>, ln: Line, t: nat) {
    && ln.nblks <= |ln.vblks| == g.lineSize
    && NoDup(ln.vblks[..ln.nblks])
    && (forall j :: 0 <= j < ln.nblks ==> InOpen(luns, t, ln.vblks[j]))
    && (0 < ln.nblks ==> ln.current < ln.nblks)
  }

  /** The blocks of a line under construction: distinct, open and flagged. */
  ghost predicate InLine(luns: seq<Lun>, t: nat, ln: seq<Blk>) {
    && NoDup(ln)
    && forall b :: b in ln ==> InOpen(luns, t, b) && luns[b.lun].md[b.blk].line
  }

  /** Nothing more can be drawn from LUN `i` for a line of type `t`. */
  ghost predicate Exhausted(luns: seq<Lun>, i: nat, t: nat, ln: seq<Blk>)
    requires i < |luns| && t < |luns[i].open|
  {
    luns[i].free == [] && forall b :: b in luns[i].open[t] ==> Blk(i, b) in ln
  }

  ghost predicate AllExhausted(luns: seq<Lun>, avail: set<nat>, t: nat, ln: seq<Blk>) {
    forall i :: 0 <= i < |luns| && i !in avail ==> t < |luns[i].open| && Exhausted(luns, i, t, ln)
  }

  /** What opening blocks for type `t` leaves alone. */
  ghost predicate Grown(l0: Lun, l1: Lun, t: nat)
    requires |l0.open| == |l1.open| == LINES && t < LINES && |l0.md| == |l1.md|
  {
    && (forall u :: 0 <= u < LINES && u != t ==> l1.open[u] == l0.open[u])
    && (forall b :: b in l0.open[t] ==> b in l1.open[t])
    && (forall b :: b in l1.open[t] ==> b in l0.open[t] || b in l0.free)
    && (forall b :: b in l1.free ==> b in l0.free)
    && l1.waiting == l0.waiting
    && (forall b :: 0 <= b < |l0.md| && b !in l0.free ==>
          l1.md[b].currentPg == l0.md[b].currentPg && l1.md[b].used == l0.md[b].used
          && l1.md[b].open == l0.md[b].open && (l0.md[b].line ==> l1.md[b].line))
  }

  ghost predicate IsFree(luns: seq<Lun>, b: Blk) { b.lun < |luns| && b.blk in luns[b.lun].free }

  /** No block has become free. */
  ghost predicate FreeShrinks(luns: seq<Lun>, luns': seq<Lun>) {
    forall b :: IsFree(luns', b) ==> IsFree(luns, b)
  }

  /** What was erased since `log` was free in `luns`. */
  ghost predicate ErasesFree(luns: seq<Lun>, log: seq<Event>, log': seq<Event>) {
    log <= log' && forall k :: |log| <= k < |log'| && log'[k].Erased? ==> IsFree(luns, log'[k].b)
  }

  lemma ErasesFreeTrans(luns: seq<Lun>, luns1: seq<Lun>, log: seq<Event>, log1: seq<Event>, log2: seq<Event>)
    requires ErasesFree(luns, log, log1) && FreeShrinks(luns, luns1) && ErasesFree(luns1, log1, log2)
    ensures ErasesFree(luns, log, log2)
  {
    forall k | |log| <= k < |log2| && log2[k].Erased? ensures IsFree(luns, log2[k].b) {
      assert k < |log1| ==> log2[k] == log1[k];
      assert |log1| <= k ==> IsFree(luns1, log2[k].b);
    }
  }

  lemma NothingErased(luns: seq<Lun>, log: seq<Event>)
    ensures ErasesFree(luns, log, log) && FreeShrinks(luns, luns)
  {
  }

  lemma EraseOne(luns: seq<Lun>, lun: nat, b: nat, log: seq<Event>)
    requires IsFree(luns, Blk(lun, b))
    ensures ErasesFree(luns, log, log + [Erased(Blk(lun, b))])
  {
  }

  lemma ShrinksTrans(luns: seq<Lun>, luns1: seq<Lun>, luns2: seq<Lun>)
    requires FreeShrinks(luns, luns1) && FreeShrinks(luns1, luns2)
    ensures FreeShrinks(luns, luns2)
  {
  }

  lemma GrownShrinks(luns: seq<Lun>, luns': seq<Lun>, t: nat)
    requires AllGrown(luns, luns', t)
    ensures FreeShrinks(luns, luns')
  {
    forall b | IsFree(luns', b) ensures IsFree(luns, b) {
      assert Grown(luns[b.lun], luns'[b.lun], t);
    }
  }

  ghost predicate AllGrown(l0: seq<Lun>, l1: seq<Lun>, t: nat) {
    && t < LINES && |l0| == |l1|
    && forall i :: 0 <= i < |l0| ==>
         |l0[i].open| == |l1[i].open| == LINES && |l0[i].md| == |l1[i].md| && Grown(l0[i], l1[i], t)
  }

  lemma GrownRefl(luns: seq<Lun>, t: nat)
    requires t < LINES && forall i :: 0 <= i < |luns| ==> |luns[i].open| == LINES
    ensures AllGrown(luns, luns, t)
  {
  }

  lemma GrownTrans(l0: seq<Lun>, l1: seq<Lun>, l2: seq<Lun>, t: nat)
    requires AllGrown(l0, l1, t) && AllGrown(l1, l2, t)
    ensures AllGrown(l0, l2, t)
  {
    forall i | 0 <= i < |l0| ensures Grown(l0[i], l2[i], t) {
      assert Grown(l0[i], l1[i], t) && Grown(l1[i], l2[i], t);
    }
  }

  lemma InLineGrown(g: Geometry, luns: seq<Lun>, luns': seq<Lun>, t: nat, ln: seq<Blk>)
    requires LunsOk(g, luns) && LunsOk(g, luns') && AllGrown(luns, luns', t) && InLine(luns, t, ln)
    ensures InLine(luns', t, ln)
  {
    forall b | b in ln ensures InOpen(luns', t, b) && luns'[b.lun].md[b.blk].line {
      assert Grown(luns[b.lun], luns'[b.lun], t);
      assert InOpen(luns, t, b) && luns[b.lun].md[b.blk].line;
      assert LunInv(g.pages, g.blocks, luns[b.lun]);
      assert b.blk !in luns[b.lun].free;
    }
  }

  lemma GotGrown(g: Geometry, luns: seq<Lun>, luns': seq<Lun>, lun: nat, t: nat, r: Option<nat>, k: nat)
    requires LunsOk(g, luns) && lun < |luns| && t < LINES && GotBlock(luns, luns', lun, t, r, k)
    ensures AllGrown(luns, luns', t)
  {
    GrownRefl(luns, t);
    var l := luns[lun];
    assert l.free == l.free[..k] + l.free[k..];
    if r.Some? {
      assert r.value in l.free && l.free[k..] == [r.value] + l.free[k + 1..];
      assert luns'[lun].free == l.free[k + 1..];
      assert luns'[lun].open[t] == [r.value] + l.open[t];
    }
    assert Grown(l, luns'[lun], t);
  }

  lemma PickedTyped(luns: seq<Lun>, lun: nat, b: nat, t: nat)
    requires LunsTyped(luns) && t < LINES && InOpen(luns, t, Blk(lun, b))
    ensures LunsTyped(luns[lun := MarkLine(luns[lun], b, t)])
  {
    MarkTyped(luns[lun], b, t);
    TypedUpdate(luns, lun, MarkLine(luns[lun], b, t));
  }

  /** A newly opened block is at the head of its list and gets its flags when it joins the line. */
  lemma GotTyped(g: Geometry, luns: seq<Lun>, luns': seq<Lun>, lun: nat, t: nat, r: Option<nat>, k: nat)
    requires LunsOk(g, luns) && LunsTyped(luns) && lun < |luns| && t < LINES && GotBlock(luns, luns', lun, t, r, k)
    ensures r.None? ==> LunsTyped(luns')
    ensures r.Some? ==> && r.value < |luns'[lun].md| && LunsTyped(luns'[lun := MarkLine(luns'[lun], r.value, t)])
                        && luns'[lun].open[t] != [] && luns'[lun].open[t][0] == r.value && !luns'[lun].md[r.value].line
  {
    var l := luns[lun];
    assert Typed(l) && LunInv(g.pages, g.blocks, l);
    var f := FailErase(l, k);
    FailEraseTyped(l, k);
    if r.None? {
      TypedUpdate(luns, lun, f);
    } else {
      FailEraseInv(g.pages, g.blocks, l, k);
      OpenMarkTyped(g.pages, g.blocks, f, t);
      var m := MarkLine(OpenFirst(f, t), r.value, t);
      TypedUpdate(luns, lun, m);
      assert luns'[lun := m] == luns[lun := m];
    }
  }

  lemma NewBlock(g: Geometry, luns: seq<Lun>, luns': seq<Lun>, lun: nat, t: nat, ln: seq<Blk>, b: nat, k: nat)
    requires LunsOk(g, luns) && lun < |luns| && t < LINES && GotBlock(luns, luns', lun, t, Some(b), k)
    requires InLine(luns, t, ln)
    ensures b in luns'[lun].open[t] && Blk(lun, b) !in ln
  {
    assert luns'[lun].open[t][0] == b;
    assert b in luns[lun].free;
    assert LunInv(g.pages, g.blocks, luns[lun]);
  }

  lemma Marked(g: Geometry, luns: seq<Lun>, lun: nat, b: nat, t: nat, log: seq<Event>, start: Blk -> nat)
    requires LunsOk(g, luns) && LogOk(g, luns, log, start)
    requires lun < |luns| && b < g.blocks && t < LINES
    ensures var luns' := luns[lun := MarkLine(luns[lun], b, t)];
            LunsOk(g, luns') && LogOk(g, luns', log, start) && AllGrown(luns, luns', t)
  {
    var l' := MarkLine(luns[lun], b, t);
    MarkLineInv(g.pages, g.blocks, luns[lun], b, t);
    LunsUpdate(g, luns, lun, l');
    LogKeep(g, luns, luns[lun := l'], log, start);
    GrownRefl(luns, t);
    assert Grown(luns[lun], l', t);
  }

  /** The block picked for the line is flagged and appended to it. */
  lemma JoinLine(g: Geometry, luns: seq<Lun>, lun: nat, b: nat, t: nat, ln: seq<Blk>, log: seq<Event>,
                 start: Blk -> nat)
    requires LunsOk(g, luns) && LogOk(g, luns, log, start) && t < LINES && InLine(luns, t, ln)
    requires lun < |luns| && b < g.blocks && InOpen(luns, t, Blk(lun, b)) && Blk(lun, b) !in ln
    ensures var luns' := luns[lun := MarkLine(luns[lun], b, t)];
            && LunsOk(g, luns') && LogOk(g, luns', log, start) && AllGrown(luns, luns', t)
            && InLine(luns', t, ln + [Blk(lun, b)])
  {
    var luns' := luns[lun := MarkLine(luns[lun], b, t)];
    Marked(g, luns, lun, b, t, log, start);
    InLineGrown(g, luns, luns', t, ln);
    NoDupAppend(ln, Blk(lun, b));
  }

  lemma LogKeep(g: Geometry, luns: seq<Lun>, luns': seq<Lun>, log: seq<Event>, start: Blk -> nat)
    requires LunsOk(g, luns) && LunsOk(g, luns') && LogOk(g, luns, log, start)
    requires forall t, b :: 0 <= t < LINES && InOpen(luns', t, b) ==>
               InOpen(luns, t, b) && luns'[b.lun].md[b.blk].currentPg == luns[b.lun].md[b.blk].currentPg
    ensures LogOk(g, luns', log, start)
  {
  }

  lemma LunsUpdate(g: Geometry, luns: seq<Lun>, i: nat, l: Lun)
    requires LunsOk(g, luns) && i < |luns| && |l.md| == g.blocks && LunInv(g.pages, g.blocks, l)
    ensures LunsOk(g, luns[i := l])
  {
  }

  /** A freshly erased block may join the open blocks. */
  lemma LogErased(g: Geometry, luns: seq<Lun>, luns': seq<Lun>, log: seq<Event>, start: Blk -> nat, c: Blk)
    requires LunsOk(g, luns) && LunsOk(g, luns') && LogOk(g, luns, log, start)
    requires forall t, b :: 0 <= t < LINES && InOpen(luns', t, b) ==>
               if b == c then luns'[b.lun].md[b.blk].currentPg == 0
               else InOpen(luns, t, b) && luns'[b.lun].md[b.blk].currentPg == luns[b.lun].md[b.blk].currentPg
    ensures LogOk(g, luns', log + [Erased(c)], start)
  {
    OrderedAppend(g.pages, start, log, Erased(c));
  }

  /** The outcome of ch_prov_blk_get: `k` blocks failed to erase, the next one (if any) opened. */
  ghost predicate GotBlock(luns: seq<Lun>, luns': seq<Lun>, lun: nat, t: nat, r: Option<nat>, k: nat)
    requires lun < |luns| && |luns[lun].open| == |luns[lun].nopen| == LINES && t < LINES
    requires luns[lun].nfree == |luns[lun].free|
  {
    var l := luns[lun];
    && k <= |l.free|
    && (r.None? ==> k == |l.free| && luns' == luns[lun := FailErase(l, k)])
    && (r.Some? ==> k < |l.free| && r.value == l.free[k] < |l.md|
                    && luns' == luns[lun := OpenFirst(FailErase(l, k), t)])
  }

  lemma FreeBlocks(g: Geometry, luns: seq<Lun>, lun: nat)
    requires LunsOk(g, luns) && lun < |luns|
    ensures forall b :: b in luns[lun].free ==> b < g.blocks && b !in luns[lun].used
    ensures forall k :: 0 <= k < |luns[lun].free| ==> luns[lun].free[k] < g.blocks && IsFree(luns, Blk(lun, luns[lun].free[k]))
  {
    assert LunInv(g.pages, g.blocks, luns[lun]);
    assert forall k :: 0 <= k < |luns[lun].free| ==> luns[lun].free[k] in luns[lun].free;
  }

  lemma OpenedKeep(l: Lun, k: nat, t: nat)
    requires Counted(l) && t < LINES && k <= |l.free|
    ensures FailErase(l, k).retired == l.retired
    ensures k < |l.free| && l.free[k] < |l.md| ==> OpenFirst(FailErase(l, k), t).retired == l.retired
  {
  }

  lemma Failed(g: Geometry, luns: seq<Lun>, lun: nat, k: nat, log: seq<Event>, start: Blk -> nat)
    requires LunsOk(g, luns) && LogOk(g, luns, log, start) && lun < |luns| && k <= |luns[lun].free|
    ensures var luns' := luns[lun := FailErase(luns[lun], k)];
            LunsOk(g, luns') && LogOk(g, luns', log, start)
  {
    var l' := FailErase(luns[lun], k);
    FailEraseInv(g.pages, g.blocks, luns[lun], k);
    LunsUpdate(g, luns, lun, l');
    LogKeep(g, luns, luns[lun := l'], log, start);
  }

  lemma Opened(g: Geometry, luns: seq<Lun>, lun: nat, k: nat, t: nat, log: seq<Event>, start: Blk -> nat)
    requires LunsOk(g, luns) && LogOk(g, luns, log, start)
    requires lun < |luns| && k < |luns[lun].free| && luns[lun].free[k] < g.blocks && t < LINES
    ensures var luns' := luns[lun := OpenFirst(FailErase(luns[lun], k), t)];
            LunsOk(g, luns') && LogOk(g, luns', log + [Erased(Blk(lun, luns[lun].free[k]))], start)
  {
    var l := FailErase(luns[lun], k);
    var l' := OpenFirst(l, t);
    FailEraseInv(g.pages, g.blocks, luns[lun], k);
    OpenFirstInv(g.pages, g.blocks, l, t);
    LunsUpdate(g, luns, lun, l');
    LogErased(g, luns, luns[lun := l'], log, start, Blk(lun, luns[lun].free[k]));
  }

  /** Taking the next page of an open block keeps the log ordered. */
  lemma LogTaken(g: Geometry, luns: seq<Lun>, log: seq<Event>, start: Blk -> nat, c: Blk, t: nat)
    requires LunsOk(g, luns) && LogOk(g, luns, log, start)
    requires t < LINES && c.lun < |luns| && c.blk < g.blocks && InOpen(luns, t, c)
    ensures var l := luns[c.lun];
            var luns' := luns[c.lun := TakePage(g.pages, l, c.blk, t)];
            && LunsOk(g, luns')
            && LogOk(g, luns', log + [Programmed(c, l.md[c.blk].currentPg)], start)
  {
    hide Ordered, Partition, Waiting;
    var l := luns[c.lun];
    var l' := TakePage(g.pages, l, c.blk, t);
    var luns' := luns[c.lun := l'];
    TakePageInv(g.pages, g.blocks, l, c.blk, t);
    LunsUpdate(g, luns, c.lun, l');
    RemoveFacts(l.open[t], c.blk);
    assert l.md[c.blk].currentPg < g.pages;
    OrderedAppend(g.pages, start, log, Programmed(c, l.md[c.blk].currentPg));
    forall u, b | 0 <= u < LINES && InOpen(luns', u, b)
      ensures InOpen(luns, u, b)
      ensures b != c ==> luns'[b.lun].md[b.blk] == luns[b.lun].md[b.blk]
      ensures b == c ==> l'.md[b.blk].currentPg == l.md[b.blk].currentPg + 1
    {
    }
  }

  lemma TakenTyped(g: Geometry, luns: seq<Lun>, c: Blk, t: nat)
    requires LunsOk(g, luns) && LunsTyped(luns) && t < LINES && InOpen(luns, t, c)
    ensures |luns[c.lun].open| == |luns[c.lun].nopen| && 0 < luns[c.lun].nopen[t]
    ensures LunsTyped(luns[c.lun := TakePage(g.pages, luns[c.lun], c.blk, t)])
  {
    var l := luns[c.lun];
    assert LunInv(g.pages, g.blocks, l);
    TakePageTyped(g.pages, g.blocks, l, c.blk, t);
    TypedUpdate(luns, c.lun, TakePage(g.pages, l, c.blk, t));
  }

  /** A measure of how far round-robin still has to go to reach an available LUN. */
  ghost function Ahead(avail: set<nat>, lun: nat, n: nat): int {
    if exists l :: l in avail && lun <= l then n - lun else 2 * n - lun
  }

  ghost predicate OtherLinesOk(g: Geometry, luns: seq<Lun>, line: seq<Line>, t: nat) {
    forall u :: 0 <= u < |line| && u != t ==> LineOk(g, luns, line[u], u)
  }

  /** A line in the middle of a round: the blocks still to visit are open; the visited ones are
      too, unless one of them has closed (`renew`). */
  ghost predicate LineMid(g: Geometry, luns: seq<Lun>, ln: Line, t: nat, renew: bool) {
    && ln.nblks <= |ln.vblks| == g.lineSize
    && NoDup(ln.vblks[..ln.nblks])
    && (forall j :: 0 <= j < ln.nblks && (ln.current <= j || !renew) ==> InOpen(luns, t, ln.vblks[j]))
    && (0 < ln.nblks ==> ln.current < ln.nblks)
  }

  lemma AllLines(g: Geometry, luns: seq<Lun>, line: seq<Line>, t: nat)
    requires |line| == LINES && t < LINES && OtherLinesOk(g, luns, line, t) && LineMid(g, luns, line[t], t, false)
    ensures forall u :: 0 <= u < LINES ==> LineOk(g, luns, line[u], u)
  {
  }

  lemma EmptyLine(g: Geometry, luns: seq<Lun>, line: seq<Line>, t: nat, renew: bool)
    requires |line| == LINES && t < LINES && OtherLinesOk(g, luns, line, t) && LineMid(g, luns, line[t], t, renew)
    requires line[t].nblks == 0
    ensures forall u :: 0 <= u < LINES ==> LineOk(g, luns, line[u], u)
  {
  }

  /** The block whose turn it is is open. */
  lemma CurrentOpen(g: Geometry, luns: seq<Lun>, ln: Line, t: nat, renew: bool)
    requires LunsOk(g, luns) && t < LINES && LineMid(g, luns, ln, t, renew) && 0 < ln.nblks
    ensures var c := ln.vblks[ln.current];
            && InOpen(luns, t, c) && c.lun < |luns| && c.blk < |luns[c.lun].md|
            && |luns[c.lun].open| == |luns[c.lun].nopen| == LINES && 0 < luns[c.lun].nopen[t]
  {
    var c := ln.vblks[ln.current];
    assert LunInv(g.pages, g.blocks, luns[c.lun]);
    assert c.blk in luns[c.lun].open[t];
  }

  /** What a page handed out adds to the log. */
  lemma TakeHands(g: Geometry, luns: seq<Lun>, luns': seq<Lun>, c: Blk, t: nat, log: seq<Event>, log': seq<Event>)
    requires 0 < g.sectors && c.lun < |luns| && c.blk < |luns[c.lun].md|
    requires t < |luns[c.lun].open| == |luns[c.lun].nopen| && 0 < luns[c.lun].nopen[t]
    requires luns' == luns[c.lun := TakePage(g.pages, luns[c.lun], c.blk, t)]
    requires log' == log + [Programmed(c, luns[c.lun].md[c.blk].currentPg)]
    ensures log <= log' && Handed(g, log') == Handed(g, log) + PagePpas(g, c, luns[c.lun].md[c.blk].currentPg)
    ensures ErasesFree(luns, log, log') && FreeShrinks(luns, luns')
  {
    assert log'[..|log|] == log;
  }

  /** Taking a page closes at most the block it was taken from. */
  lemma AfterTake(g: Geometry, luns: seq<Lun>, luns': seq<Lun>, line: seq<Line>, t: nat, c: Blk,
                  renew: bool, closed: bool)
    requires LunsOk(g, luns) && LunsOk(g, luns') && |line| == LINES && t < LINES
    requires InOpen(luns, t, c) && |luns[c.lun].open| == |luns[c.lun].nopen| == LINES && 0 < luns[c.lun].nopen[t]
    requires luns' == luns[c.lun := TakePage(g.pages, luns[c.lun], c.blk, t)]
    requires closed <==> luns[c.lun].md[c.blk].currentPg + 1 == g.pages
    requires OtherLinesOk(g, luns, line, t) && LineMid(g, luns, line[t], t, renew)
    requires 0 < line[t].nblks && c == line[t].vblks[line[t].current]
    ensures OtherLinesOk(g, luns', line, t)
    ensures var ln := line[t];
            var current := if ln.current < ln.nblks - 1 then ln.current + 1 else 0;
            (current == 0 && (renew || closed)) || LineMid(g, luns', ln.(current := current), t, renew || closed)
  {
    TakenOpen(g, luns, t, c);
    hide LunInv, TakePage, InOpen;
    var ln := line[t];
    forall j | ln.current < j < ln.nblks ensures ln.vblks[j] != c {
      assert ln.vblks[..ln.nblks][j] != ln.vblks[..ln.nblks][ln.current];
    }
  }

  /** Taking a page leaves every other block open. */
  lemma TakenOpen(g: Geometry, luns: seq<Lun>, t: nat, c: Blk)
    requires LunsOk(g, luns) && t < LINES && InOpen(luns, t, c)
    requires |luns[c.lun].open| == |luns[c.lun].nopen| == LINES && 0 < luns[c.lun].nopen[t]
    ensures var luns' := luns[c.lun := TakePage(g.pages, luns[c.lun], c.blk, t)];
            var keeps := luns[c.lun].md[c.blk].currentPg + 1 != g.pages;
            forall u, b :: 0 <= u < LINES && InOpen(luns, u, b) && (b != c || keeps) ==> InOpen(luns', u, b)
  {
    if luns[c.lun].md[c.blk].currentPg + 1 == g.pages {
      hide LunInv;
      ClosedOpen(g, luns, t, c, g.pages);
    }
  }

  /** Renewing one line leaves the others in order. */
  lemma AfterRenew(g: Geometry, luns: seq<Lun>, luns': seq<Lun>, line: seq<Line>, line': seq<Line>, t: nat)
    requires LunsOk(g, luns) && LunsOk(g, luns') && AllGrown(luns, luns', t)
    requires |line'| == |line| == LINES && line' == line[t := line'[t]] && OtherLinesOk(g, luns, line, t)
    ensures OtherLinesOk(g, luns', line', t)
  {
    forall u, b | 0 <= u < LINES && InOpen(luns, u, b) ensures InOpen(luns', u, b) {
      assert Grown(luns[b.lun], luns'[b.lun], t);
    }
  }

  lemma ForceClosed(g: Geometry, luns: seq<Lun>, line: seq<Line>, t: nat, c: Blk, log: seq<Event>,
                    start: Blk -> nat)
    requires LunsOk(g, luns) && LogOk(g, luns, log, start) && |line| == LINES && t < LINES
    requires OtherLinesOk(g, luns, line, t) && InOpen(luns, t, c)
    ensures c.blk !in luns[c.lun].free && 0 < luns[c.lun].nopen[t]
    ensures var l := Close(luns[c.lun], c.blk, t, luns[c.lun].md[c.blk].currentPg);
            var luns' := luns[c.lun := l];
            && LunsOk(g, luns') && LogOk(g, luns', log, start) && OtherLinesOk(g, luns', line, t)
            && forall u :: 0 <= u < LINES ==> !InOpen(luns', u, c)
  {
    hide Partition, Waiting, Ordered, NextPg;
    var l := luns[c.lun];
    NotFree(g, luns, t, c);
    var l' := Close(l, c.blk, t, l.md[c.blk].currentPg);
    var luns' := luns[c.lun := l'];
    CloseInv(g.pages, g.blocks, l, c.blk, t, l.md[c.blk].currentPg);
    LunsUpdate(g, luns, c.lun, l');
    ClosedOpen(g, luns, t, c, l.md[c.blk].currentPg);
    hide LunInv, Close;
    LogKeep(g, luns, luns', log, start);
  }

  lemma NotFree(g: Geometry, luns: seq<Lun>, t: nat, c: Blk)
    requires LunsOk(g, luns) && t < LINES && InOpen(luns, t, c)
    ensures c.blk !in luns[c.lun].free && |luns[c.lun].open| == |luns[c.lun].nopen| == LINES && 0 < luns[c.lun].nopen[t]
  {
    assert LunInv(g.pages, g.blocks, luns[c.lun]);
  }

  /** Closing a block takes that block off its open list, and no other block off any. */
  lemma ClosedOpen(g: Geometry, luns: seq<Lun>, t: nat, c: Blk, pg: nat)
    requires LunsOk(g, luns) && t < LINES && InOpen(luns, t, c)
    requires |luns[c.lun].open| == |luns[c.lun].nopen| == LINES && 0 < luns[c.lun].nopen[t]
    ensures var luns' := luns[c.lun := Close(luns[c.lun], c.blk, t, pg)];
            && (forall u, b :: 0 <= u < LINES ==> (InOpen(luns', u, b) <==> InOpen(luns, u, b) && b != c))
            && (forall i, b :: 0 <= i < |luns| && 0 <= b < |luns[i].md| && Blk(i, b) != c ==> luns'[i].md[b] == luns[i].md[b])
  {
    hide Partition, Waiting;
    var l := luns[c.lun];
    assert LunInv(g.pages, g.blocks, l);
    RemoveFacts(l.open[t], c.blk);
    assert forall u :: 0 <= u < LINES && u != t ==> c.blk !in l.open[u];
  }

  lemma InLineOpen(g: Geometry, luns: seq<Lun>, ln: Line, t: nat, c: Blk)
    requires LunsOk(g, luns) && t < LINES && LineOk(g, luns, ln, t) && c in ln.vblks[..ln.nblks]
    ensures InOpen(luns, t, c) && c.lun < |luns| && c.blk < |luns[c.lun].md|
    ensures |luns[c.lun].open| == |luns[c.lun].nopen| == LINES && 0 < luns[c.lun].nopen[t]
  {
    assert LunInv(g.pages, g.blocks, luns[c.lun]);
    assert c.blk in luns[c.lun].open[t];
  }

  lemma CloseFrees(luns: seq<Lun>, luns': seq<Lun>, c: Blk, t: nat)
    requires c.lun < |luns| && c.blk < |luns[c.lun].md|
    requires t < |luns[c.lun].open| == |luns[c.lun].nopen| && 0 < luns[c.lun].nopen[t]
    requires luns' == luns[c.lun := Close(luns[c.lun], c.blk, t, luns[c.lun].md[c.blk].currentPg)]
    ensures FreeShrinks(luns, luns')
  {
  }

  /** Opening further blocks never reopens a closed one. */
  lemma StaysClosed(g: Geometry, luns: seq<Lun>, luns': seq<Lun>, t: nat, c: Blk)
    requires LunsOk(g, luns) && AllGrown(luns, luns', t) && c.lun < |luns|
    requires c.blk !in luns[c.lun].free && c.blk < g.blocks
    requires forall u :: 0 <= u < LINES ==> !InOpen(luns, u, c)
    ensures forall u :: 0 <= u < LINES ==> !InOpen(luns', u, c)
  {
    assert Grown(luns[c.lun], luns'[c.lun], t);
    forall u | 0 <= u < LINES ensures c.blk !in luns'[c.lun].open[u] {
      assert !InOpen(luns, u, c);
    }
  }

  lemma ClosedTyped(g: Geometry, luns: seq<Lun>, c: Blk, t: nat)
    requires LunsOk(g, luns) && LunsTyped(luns) && t < LINES && InOpen(luns, t, c)
    requires |luns[c.lun].open| == |luns[c.lun].nopen| == LINES && 0 < luns[c.lun].nopen[t]
    ensures LunsTyped(luns[c.lun := Close(luns[c.lun], c.blk, t, luns[c.lun].md[c.blk].currentPg)])
  {
    var l := luns[c.lun];
    assert LunInv(g.pages, g.blocks, l);
    CloseTyped(g.pages, g.blocks, l, c.blk, t, l.md[c.blk].currentPg);
    TypedUpdate(luns, c.lun, Close(l, c.blk, t, l.md[c.blk].currentPg));
  }

  lemma PageTyped(luns: seq<Lun>, c: Blk, pg: nat)
    requires LunsTyped(luns) && c.lun < |luns| && c.blk < |luns[c.lun].md|
    ensures var l := luns[c.lun]; LunsTyped(luns[c.lun := l.(md := l.md[c.blk := l.md[c.blk].(currentPg := pg)])])
  {
    SetPageTyped(luns[c.lun], c.blk, pg);
  }

  lemma GivenUp(g: Geometry, luns: seq<Lun>, line: seq<Line>, c: Blk, log: seq<Event>, start: Blk -> nat)
    requires LunsOk(g, luns) && LogOk(g, luns, log, start) && |line| == LINES
    requires forall u :: 0 <= u < LINES ==> LineOk(g, luns, line[u], u)
    requires c.lun < |luns| && c.blk < g.blocks && forall u :: 0 <= u < LINES ==> !InOpen(luns, u, c)
    ensures var l := luns[c.lun];
            var luns' := luns[c.lun := l.(md := l.md[c.blk := l.md[c.blk].(currentPg := g.pages)])];
            && LunsOk(g, luns') && LogOk(g, luns', log, start)
            && (forall u :: 0 <= u < LINES ==> LineOk(g, luns', line[u], u))
            && (forall u :: 0 <= u < LINES ==> !InOpen(luns', u, c))
  {
    var l := luns[c.lun];
    var l' := l.(md := l.md[c.blk := l.md[c.blk].(currentPg := g.pages)]);
    var luns' := luns[c.lun := l'];
    assert LunInv(g.pages, g.blocks, l);
    forall u | 0 <= u < LINES ensures c.blk !in l.open[u] {
      assert !InOpen(luns, u, c);
    }
    assert OpenLists(g.pages, g.blocks, l') && Waiting(g.blocks, l');
    LunsUpdate(g, luns, c.lun, l');
    assert forall u, b :: 0 <= u < LINES ==> (InOpen(luns', u, b) <==> InOpen(luns, u, b));
    LogKeep(g, luns, luns', log, start);
  }

  lemma PutKeeps(g: Geometry, luns: seq<Lun>, line: seq<Line>, lun: nat, b: nat, log: seq<Event>,
                 start: Blk -> nat)
    requires LunsOk(g, luns) && LogOk(g, luns, log, start) && |line| == LINES
    requires forall u :: 0 <= u < LINES ==> LineOk(g, luns, line[u], u)
    requires lun < |luns| && b < g.blocks && b !in luns[lun].bad && luns[lun].md[b].used && !luns[lun].md[b].open
    ensures var luns' := luns[lun := PutWait(luns[lun], b)];
            && LunsOk(g, luns') && LogOk(g, luns', log, start)
            && forall u :: 0 <= u < LINES ==> LineOk(g, luns', line[u], u)
  {
    var l' := PutWait(luns[lun], b);
    var luns' := luns[lun := l'];
    PutWaitInv(g.pages, g.blocks, luns[lun], b);
    LunsUpdate(g, luns, lun, l');
    assert forall u, b :: 0 <= u < LINES ==> (InOpen(luns', u, b) <==> InOpen(luns, u, b));
    LogKeep(g, luns, luns', log, start);
  }

  lemma ReleaseKeeps(g: Geometry, luns: seq<Lun>, line: seq<Line>, lun: nat, log: seq<Event>, start: Blk -> nat)
    requires LunsOk(g, luns) && LogOk(g, luns, log, start) && |line| == LINES
    requires forall u :: 0 <= u < LINES ==> LineOk(g, luns, line[u], u)
    requires lun < |luns| && luns[lun].waiting != [] && luns[lun].waiting[0] < g.blocks && 0 < luns[lun].nused
    ensures var luns' := luns[lun := Release(luns[lun])];
            && LunsOk(g, luns') && LogOk(g, luns', log, start)
            && forall u :: 0 <= u < LINES ==> LineOk(g, luns', line[u], u)
  {
    var l' := Release(luns[lun]);
    var luns' := luns[lun := l'];
    ReleaseInv(g.pages, g.blocks, luns[lun]);
    LunsUpdate(g, luns, lun, l');
    assert forall u, b :: 0 <= u < LINES ==> (InOpen(luns', u, b) <==> InOpen(luns, u, b));
    LogKeep(g, luns, luns', log, start);
  }

  /** A waiting block is a block of the LUN, and used. */
  lemma WaitingFirst(g: Geometry, luns: seq<Lun>, lun: nat)
    requires LunsOk(g, luns) && lun < |luns| && luns[lun].waiting != []
    ensures luns[lun].waiting[0] < g.blocks && 0 < luns[lun].nused
  {
    assert LunInv(g.pages, g.blocks, luns[lun]);
    assert luns[lun].waiting[0] in luns[lun].waiting;
    assert luns[lun].waiting[0] in luns[lun].used;
  }

  ghost predicate Released(l0: Lun, l1: Lun) {
    l1.waiting == [] && l1.free == l0.free + l0.waiting && l1.open == l0.open
  }

  function NextLun(lun: nat, n: nat): nat
    requires lun < n
  {
    if lun == n - 1 then 0 else lun + 1
  }

  lemma SkipLun(avail: set<nat>, lun: nat, n: nat)
    requires lun < n && lun !in avail && avail != {} && forall l :: l in avail ==> l < n
    ensures 0 <= Ahead(avail, NextLun(lun, n), n) < Ahead(avail, lun, n)
  {
    var a :| a in avail;
    if exists l :: l in avail && lun <= l {
      var l :| l in avail && lun <= l;
      assert lun + 1 <= l;
    }
  }

  /** A line has no block yet, and no LUN is known to be exhausted. */
  lemma LineStart(g: Geometry, luns: seq<Lun>, avail: set<nat>, t: nat)
    requires LunsOk(g, luns) && t < LINES && forall i: nat :: i in avail <==> i < g.luns
    ensures AllGrown(luns, luns, t) && InLine(luns, t, []) && AllExhausted(luns, avail, t, [])
  {
    GrownRefl(luns, t);
  }

  lemma OneMoreExhausted(luns: seq<Lun>, lun: nat, avail: set<nat>, t: nat, ln: seq<Blk>)
    requires AllExhausted(luns, avail, t, ln) && lun < |luns| && t < |luns[lun].open| && Exhausted(luns, lun, t, ln)
    ensures AllExhausted(luns, avail - {lun}, t, ln)
  {
  }

  /** A turn of one LUN leaves the exhausted ones exhausted. */
  lemma TurnKeepsExhausted(luns: seq<Lun>, luns': seq<Lun>, lun: nat, avail: set<nat>, t: nat,
                           ln: seq<Blk>, ln': seq<Blk>)
    requires AllExhausted(luns, avail, t, ln) && lun in avail && lun < |luns|
    requires |luns'| == |luns| && luns' == luns[lun := luns'[lun]] && ln <= ln'
    ensures AllExhausted(luns', avail, t, ln')
  {
    forall i | 0 <= i < |luns'| && i !in avail
      ensures t < |luns'[i].open| && Exhausted(luns', i, t, ln')
    {
      assert Exhausted(luns, i, t, ln) && luns'[i] == luns[i];
    }
  }

  /** A block is bad when the table marks any of its planes. */
  ghost predicate IsBad(states: seq<nat>) {
    exists pl :: 0 <= pl < |states| && states[pl] != 0
  }

  /** What the persisted metadata must satisfy: a good block recorded as used and open still has
      an unwritten page. */
  ghost predicate Loaded(g: Geometry, md: seq<BlkMd>, bbt: seq<seq<nat>>)
    requires |md| == |bbt|
  {
    forall b :: 0 <= b < |md| && !IsBad(bbt[b]) && md[b].used && md[b].open ==> md[b].currentPg < g.pages
  }

  /** The first `n` blocks have entered the lists: metadata unchanged but for AVLB, bad blocks out. */
  ghost predicate Entered(md: seq<BlkMd>, bbt: seq<seq<nat>>, n: nat, l: Lun) {
    && n <= |md| == |bbt| == |l.md| && l.waiting == []
    && (forall b :: 0 <= b < n ==> l.md[b] == md[b].(avlb := !IsBad(bbt[b])) && (b in l.bad <==> IsBad(bbt[b])))
    && (forall b :: b in l.retired <==> 0 <= b < n && IsBad(bbt[b]) && md[b].used)
    && (forall b :: n <= b < |md| ==> l.md[b] == md[b] && b !in l.bad)
  }

  lemma EnterNext(g: Geometry, md: seq<BlkMd>, bbt: seq<seq<nat>>, b: nat, l: Lun, pos: nat)
    requires |md| == |bbt| == g.blocks && Loaded(g, md, bbt) && b < g.blocks
    requires LunInv(g.pages, b, l) && Entered(md, bbt, b, l) && pos <= |l.free|
    ensures var l' := Admit(l, b, IsBad(bbt[b]), pos);
            LunInv(g.pages, b + 1, l') && Entered(md, bbt, b + 1, l')
  {
    AdmitInv(g.pages, b, l, IsBad(bbt[b]), pos);
  }

  /** The metadata of a running LUN can be loaded. */
  lemma RunningLoaded(g: Geometry, l: Lun, bbt: seq<seq<nat>>)
    requires LunInv(g.pages, g.blocks, l) && Typed(l) && |l.md| == |bbt| == g.blocks
    requires forall b :: 0 <= b < g.blocks ==> (IsBad(bbt[b]) <==> b in l.bad)
    ensures Loaded(g, l.md, bbt)
  {
    hide IsBad;
    forall b | 0 <= b < |l.md| && !IsBad(bbt[b]) && l.md[b].used && l.md[b].open ensures l.md[b].currentPg < g.pages {
      assert b in l.used;
      assert InSome(l, b);
      assert b in l.open[USER] || b in l.open[COLD] || b in l.open[META];
    }
  }

  lemma BadAgain(g: Geometry, l: Lun, bbt: seq<seq<nat>>, l': Lun)
    requires LunInv(g.pages, g.blocks, l) && LunInv(g.pages, g.blocks, l') && |l.md| == |bbt| == g.blocks
    requires Entered(l.md, bbt, g.blocks, l') && forall b :: 0 <= b < g.blocks ==> (IsBad(bbt[b]) <==> b in l.bad)
    ensures l'.bad == l.bad && l'.waiting == [] && |l'.md| == g.blocks
    ensures forall b :: 0 <= b < g.blocks ==> l'.md[b] == l.md[b].(avlb := l'.md[b].avlb)
  {
    hide IsBad, Counted, OpenLists, Waiting;
    assert forall b :: b in l'.bad <==> b in l.bad;
  }

  // ----- Round-robin -----

  /** The last page of a block is handed out: the block closes. */
  ghost predicate Closes(pages: nat, e: Event) { e.Programmed? && e.pg + 1 == pages }

  /** No block has closed in an earlier round than the one of page `k`, so the line is still the one
      that the request found. */
  ghost predicate SameRounds(pages: nat, ln: Line, evs: seq<Event>, k: nat)
    requires k <= |evs| && 0 < ln.nblks
  {
    forall j :: 0 <= j < k && Closes(pages, evs[j]) ==> (ln.current + j) / ln.nblks == (ln.current + k) / ln.nblks
  }

  /** Page `k` of a request comes from the `k`-th block of the line after the current one, all of them
      open in the line's type, up to the round after which the line is renewed. */
  ghost predicate RoundRobin(pages: nat, ln: Line, luns: seq<Lun>, t: nat, evs: seq<Event>, pgs: nat) {
    && 0 < ln.nblks <= |ln.vblks|
    && forall k :: 0 <= k < |evs| && k < pgs && SameRounds(pages, ln, evs, k) ==>
         var c := ln.vblks[(ln.current + k) % ln.nblks];
         evs[k].Programmed? && evs[k].b == c && InOpen(luns, t, c)
  }

  /** Where the round stands after the events of `n` pages. */
  ghost predicate RoundAt(pages: nat, ln: Line, evs: seq<Event>, n: nat, ln': Line, renew: bool)
    requires 0 < ln.nblks
  {
    && (renew ==> exists j :: 0 <= j < |evs| && Closes(pages, evs[j]))
    && (SameRounds(pages, ln, evs, |evs|) ==> |evs| == n && ln' == ln.(current := (ln.current + n) % ln.nblks))
  }

  ghost function NextOf(ln: Line): nat { if ln.current < ln.nblks - 1 then ln.current + 1 else 0 }

  /** One more page of the request has been handed out; `evs'` are its events with those of a renewal. */
  ghost predicate OneTurn(pages: nat, evs: seq<Event>, ln': Line, renew: bool, last: bool, evs': seq<Event>,
                          ln2: Line, renew': bool)
    requires ln'.current < |ln'.vblks|
  {
    && |evs| < |evs'| && evs <= evs' && evs'[|evs|].Programmed? && evs'[|evs|].b == ln'.vblks[ln'.current]
    && (renew' ==> renew || Closes(pages, evs'[|evs|]))
    && (!(NextOf(ln') == 0 || last) || !(renew || Closes(pages, evs'[|evs|])) ==>
          |evs'| == |evs| + 1 && ln2 == ln'.(current := NextOf(ln')))
  }

  ghost function Since(log: seq<Event>, log': seq<Event>): seq<Event>
    requires |log| <= |log'|
  {
    log'[|log|..]
  }

  lemma TurnAfter(pages: nat, log0: seq<Event>, log: seq<Event>, log': seq<Event>, ln': Line, renew: bool, last: bool,
                  ln2: Line, renew': bool)
    requires log0 <= log <= log' && ln'.current < |ln'.vblks|
    requires OneTurn(pages, [], ln', renew, last, Since(log, log'), ln2, renew')
    ensures OneTurn(pages, Since(log0, log), ln', renew, last, Since(log0, log'), ln2, renew')
  {
    var evs, d := Since(log0, log), Since(log, log');
    assert Since(log0, log') == evs + d;
    assert (evs + d)[|evs|] == d[0];
  }

  lemma TurnTaken(pages: nat, log: seq<Event>, log': seq<Event>, ln: Line, renew: bool, last: bool, e: Event, ln2: Line, renew': bool)
    requires ln.current < |ln.vblks| && e.Programmed? && e.b == ln.vblks[ln.current] && log + [e] <= log'
    requires renew' ==> renew || Closes(pages, e)
    requires !(NextOf(ln) == 0 || last) || !(renew || Closes(pages, e)) ==> log' == log + [e] && ln2 == ln.(current := NextOf(ln))
    ensures OneTurn(pages, [], ln, renew, last, Since(log, log'), ln2, renew')
  {
    assert log'[|log|] == (log + [e])[|log|];
  }

  lemma NextMod(n: nat, m: nat, ln: Line)
    requires 0 < n && ln.nblks == n && ln.current == m % n
    ensures NextOf(ln) == (m + 1) % n
    ensures (m + 1) / n == if NextOf(ln) == 0 then m / n + 1 else m / n
  {
    DivMod(m, n);
    if m % n == n - 1 {
      assert m + 1 == (m / n + 1) * n;
      DivModUnique(m + 1, n, m / n + 1, 0);
    } else {
      DivModUnique(m + 1, n, m / n, m % n + 1);
    }
  }

  lemma DivMono(a: nat, b: nat, n: nat)
    requires a <= b && 0 < n
    ensures a / n <= b / n
  {
    DivMod(a, n);
    DivMod(b, n);
    if b / n < a / n {
      MulMono(b / n + 1, a / n, n);
    }
  }

  /** The same rounds at a later page are the same rounds at an earlier one. */
  lemma RoundsBefore(pages: nat, ln: Line, evs: seq<Event>, evs': seq<Event>, k: nat, m: nat)
    requires 0 < ln.nblks && k <= |evs| && evs <= evs' && k <= m <= |evs'| && SameRounds(pages, ln, evs', m)
    ensures SameRounds(pages, ln, evs, k)
  {
    forall j | 0 <= j < k && Closes(pages, evs[j]) ensures (ln.current + j) / ln.nblks == (ln.current + k) / ln.nblks {
      assert evs'[j] == evs[j];
      DivMono(ln.current + j, ln.current + k, ln.nblks);
      DivMono(ln.current + k, ln.current + m, ln.nblks);
    }
  }

  lemma RoundStart(g: Geometry, luns: seq<Lun>, ln: Line, t: nat, pgs: nat)
    requires LineOk(g, luns, ln, t) && 0 < ln.nblks
    ensures RoundRobin(g.pages, ln, luns, t, [], pgs) && RoundAt(g.pages, ln, [], 0, ln, false)
  {
    DivModUnique(ln.current, ln.nblks, 0, ln.current);
  }

  /** A line that is renewed at the end of a round has left the rounds it was in. */
  lemma RenewedRounds(pages: nat, ln: Line, evs: seq<Event>, n: nat, ln': Line, renew: bool, evs': seq<Event>, k: nat)
    requires 0 < ln.nblks && RoundAt(pages, ln, evs, n, ln', renew) && evs <= evs' && |evs| < k <= |evs'|
    requires renew || Closes(pages, evs'[|evs|])
    ensures SameRounds(pages, ln, evs', k) ==> NextOf(ln') != 0
  {
    if SameRounds(pages, ln, evs', k) {
      RoundsBefore(pages, ln, evs, evs', |evs|, k);
      NextMod(ln.nblks, ln.current + n, ln');
      var j :| 0 <= j <= |evs| && Closes(pages, evs'[j]);
      DivMono(ln.current + j, ln.current + n, ln.nblks);
      DivMono(ln.current + n + 1, ln.current + k, ln.nblks);
    }
  }

  /** A turn keeps the round-robin order. */
  lemma TurnKeeps(pages: nat, ln: Line, luns: seq<Lun>, t: nat, evs: seq<Event>, n: nat, pgs: nat, ln': Line, renew: bool,
                  last: bool, evs': seq<Event>, ln2: Line, renew': bool)
    requires RoundRobin(pages, ln, luns, t, evs, pgs) && RoundAt(pages, ln, evs, n, ln', renew) && ln'.current < |ln'.vblks|
    requires forall i :: 0 <= i < ln.nblks ==> InOpen(luns, t, ln.vblks[i])
    requires OneTurn(pages, evs, ln', renew, last, evs', ln2, renew') && (last ==> pgs <= n + 1)
    ensures RoundRobin(pages, ln, luns, t, evs', pgs)
  {
    hide InOpen;
    forall k | 0 <= k < |evs'| && k < pgs && SameRounds(pages, ln, evs', k)
      ensures var c := ln.vblks[(ln.current + k) % ln.nblks]; evs'[k].Programmed? && evs'[k].b == c && InOpen(luns, t, c)
    {
      RoundsBefore(pages, ln, evs, evs', if k < |evs| then k else |evs|, k);
      if |evs| < k {
        RenewedRounds(pages, ln, evs, n, ln', renew, evs', k);
      }
    }
  }

  /** Unless it was the last turn, the round stands at the next block. */
  lemma TurnMoves(pages: nat, ln: Line, evs: seq<Event>, n: nat, ln': Line, renew: bool, evs': seq<Event>, ln2: Line, renew': bool)
    requires 0 < ln.nblks && RoundAt(pages, ln, evs, n, ln', renew) && ln'.current < |ln'.vblks|
    requires OneTurn(pages, evs, ln', renew, false, evs', ln2, renew')
    ensures RoundAt(pages, ln, evs', n + 1, ln2, renew')
  {
    if renew' {
      if renew {
        var j :| 0 <= j < |evs| && Closes(pages, evs[j]);
        assert Closes(pages, evs'[j]);
      }
      assert exists j :: 0 <= j < |evs'| && Closes(pages, evs'[j]);
    }
    if SameRounds(pages, ln, evs', |evs'|) {
      RoundsBefore(pages, ln, evs, evs', |evs|, |evs'|);
      NextMod(ln.nblks, ln.current + n, ln');
      if renew || Closes(pages, evs'[|evs|]) {
        RenewedRounds(pages, ln, evs, n, ln', renew, evs', |evs'|);
      }
    }
  }

  /** Before anything is erased or handed out, the recorded current pages are the next ones. */
  lemma FreshLog(g: Geometry, luns: seq<Lun>, md: seq<seq<BlkMd>>, bbt: seq<seq<seq<nat>>>, start: Blk -> nat)
    requires g.Sound() && |luns| == |md| == |bbt| == g.luns
    requires forall i :: 0 <= i < g.luns ==> |md[i]| == g.blocks && LunInv(g.pages, g.blocks, luns[i])
                                             && Entered(md[i], bbt[i], g.blocks, luns[i])
    requires forall b: Blk :: b.lun < g.luns && b.blk < g.blocks ==> start(b) == md[b.lun][b.blk].currentPg
    ensures LunsOk(g, luns) && LogOk(g, luns, [], start)
  {
  }

  /** The calls a channel serves; block numbers are those of the geometry. */
  datatype Call = GetPpas(pgs: nat, t: nat) | ForceClose(c: Blk, t: nat) | Put(lun: nat, blk: nat) | Checkpoint
  {
    ghost predicate Wf(g: Geometry) {
      match this
      case GetPpas(pgs, t) => t < LINES
      case ForceClose(c, t) => t < LINES
      case Put(lun, blk) => lun < g.luns && blk < g.blocks
      case Checkpoint => true
    }
  }

  class Provisioner {
    const g: Geometry
    var luns: seq<Lun>
    var line: seq<Line>
    var log: seq<Event>
    ghost var start: Blk -> nat
    /** Per LUN, the bad blocks that were recorded as used at the start. */
    ghost var retired: seq<set<nat>>
    /** Plane erases that failed, and that worked. */
    ghost var faults: nat
    ghost var erases: nat

    ghost predicate Base()
      reads this
    {
      LunsOk(g, luns) && LogOk(g, luns, log, start) && |line| == LINES
      && (forall t :: 0 <= t < LINES ==> |line[t].vblks| == g.lineSize)
      && |retired| == g.luns && forall i :: 0 <= i < g.luns ==> luns[i].retired == retired[i]
    }

    /** What holds between any two calls. */
    ghost predicate Valid()
      reads this
    {
      Base() && LunsTyped(luns) && forall t :: 0 <= t < LINES ==> LineOk(g, luns, line[t], t)
    }

    constructor (geometry: Geometry)
      ensures g == geometry && log == [] && forall b :: start(b) == 0
    {
      g := geometry;
      luns, line, log := [], [], [];
      start := (b: Blk) => 0;
      faults, erases, retired := 0, 0, [];
    }

    /** Enters one block into the lists of its LUN, from its bad block states (one per plane) and
        its persisted flags; free blocks go to a random place. */
    method BlkAlloc(lun: Lun, b: nat, states: seq<nat>) returns (l: Lun, pos: nat)
      requires b < |lun.md| && Counted(lun)
      ensures pos <= |lun.free|
      ensures l == Admit(lun, b, IsBad(states), pos)
    {
      pos := 0;
      var badBlk := 0;
      for pl := 0 to |states|
        invariant badBlk == 0 <==> forall i :: 0 <= i < pl ==> states[i] == 0
        invariant 0 <= badBlk
      {
        badBlk := badBlk + states[pl];
      }
      l := lun.(md := lun.md[b := lun.md[b].(avlb := badBlk == 0)]);
      if badBlk != 0 {
        l := l.(bad := l.bad + {b}, retired := if l.md[b].used then l.retired + {b} else l.retired);
      } else if l.md[b].used {
        l := l.(used := [b] + l.used, nused := l.nused + 1);
        if l.md[b].open {
          var t := LineTypeOf(l.md[b]);
          l := l.(open := l.open[t := [b] + l.open[t]], nopen := l.nopen[t := l.nopen[t] + 1]);
        }
      } else {
        var at := 0;
        if 0 < l.nfree {
          var rnd: nat :| rnd < l.nfree;
          var before: bool := *;
          at := if before then rnd else rnd + 1;
        }
        pos := at;
        l := l.(free := l.free[..at] + [b] + l.free[at..], nfree := l.nfree + 1);
      }
    }

    /** Builds the lists of one LUN: every good block is in exactly one of them. */
    method ListCreate(md: seq<BlkMd>, bbt: seq<seq<nat>>) returns (l: Lun)
      requires g.Sound() && |md| == |bbt| == g.blocks && Loaded(g, md, bbt)
      ensures LunInv(g.pages, g.blocks, l) && Entered(md, bbt, g.blocks, l) && Typed(l)
    {
      l := Lun([], [], [[], [], []], [], 0, 0, [0, 0, 0], md, {}, {});
      assert Entered(md, bbt, 0, l) && LunInv(g.pages, 0, l);
      for b := 0 to g.blocks
        invariant LunInv(g.pages, b, l) && Entered(md, bbt, b, l) && Typed(l)
      {
        ghost var l0 := l;
        var pos;
        l, pos := BlkAlloc(l, b, bbt[b]);
        EnterNext(g, md, bbt, b, l0, pos);
        AdmitTyped(g.pages, b, l0, IsBad(bbt[b]), pos);
      }
    }

    /** The restart law: built again from the metadata of a running LUN and the table of its bad blocks,
        the open lists hold the blocks they held, and the blocks put but not yet released are free. */
    method ListsAgain(l: Lun, bbt: seq<seq<nat>>) returns (l': Lun)
      requires g.Sound() && LunInv(g.pages, g.blocks, l) && Typed(l) && |l.md| == |bbt| == g.blocks
      requires forall b :: 0 <= b < g.blocks ==> (IsBad(bbt[b]) <==> b in l.bad)
      ensures LunInv(g.pages, g.blocks, l') && Typed(l') && l'.bad == l.bad && l'.waiting == []
      ensures forall t: nat, b: nat :: t < LINES ==> (b in l'.open[t] <==> b in l.open[t])
      ensures forall b: nat :: b in l'.used <==> b in l.used && b !in l.waiting
      ensures forall b: nat :: b in l'.free <==> b in l.free || b in l.waiting
    {
      hide IsBad;
      RunningLoaded(g, l, bbt);
      l' := ListCreate(l.md, bbt);
      BadAgain(g, l, bbt, l');
      hide LunInv, Typed, Entered;
      SameListsAgain(g.pages, g.blocks, l, l');
    }

    /** Starts the channel from its persisted block metadata and bad block table, and fills the
        three lines; it fails when a line stays empty. */
    method Init(md: seq<seq<BlkMd>>, bbt: seq<seq<seq<nat>>>) returns (ok: bool)
      requires g.Sound() && |md| == |bbt| == g.luns
      requires forall i :: 0 <= i < g.luns ==> |md[i]| == |bbt[i]| == g.blocks && Loaded(g, md[i], bbt[i])
      modifies this
      ensures Base() && OnlyErases([], log)
      ensures ok ==> Valid() && forall t :: 0 <= t < LINES ==> 0 < line[t].nblks
      ensures !ok ==> exists t :: 0 <= t < LINES && AllExhausted(luns, {}, t, [])
      ensures forall i, b :: 0 <= i < g.luns && 0 <= b < g.blocks ==> start(Blk(i, b)) == md[i][b].currentPg
      ensures forall i, b :: 0 <= i < g.luns ==>
                (b in retired[i] <==> 0 <= b < g.blocks && IsBad(bbt[i][b]) && md[i][b].used)
    {
      hide LunInv, LogOk, AllExhausted, InOpen, Loaded, LunsTyped;
      BuildLists(md, bbt);
      ghost var start0, retired0 := start, retired;
      var t: nat := 0;
      while t < LINES
        invariant t <= LINES && Valid() && OnlyErases([], log) && start == start0 && retired == retired0
        invariant forall u :: 0 <= u < t ==> 0 < line[u].nblks
      {
        ghost var luns1, line1 := luns, line;
        var renewed := RenewLine(t);
        AfterRenew(g, luns1, luns, line1, line, t);
        if !renewed {
          assert line[t].vblks[..0] == [];
          return false;
        }
        t := t + 1;
      }
      ok := true;
    }

    /** The lists of every LUN, and three empty lines. */
    method BuildLists(md: seq<seq<BlkMd>>, bbt: seq<seq<seq<nat>>>)
      requires g.Sound() && |md| == |bbt| == g.luns
      requires forall i :: 0 <= i < g.luns ==> |md[i]| == |bbt[i]| == g.blocks && Loaded(g, md[i], bbt[i])
      modifies this
      ensures Valid() && log == []
      ensures forall i, b :: 0 <= i < g.luns && 0 <= b < g.blocks ==> start(Blk(i, b)) == md[i][b].currentPg
      ensures forall i, b :: 0 <= i < g.luns ==>
                (b in retired[i] <==> 0 <= b < g.blocks && IsBad(bbt[i][b]) && md[i][b].used)
    {
      hide LunInv, Loaded, IsBad, Typed;
      log := [];
      luns := [];
      for lun := 0 to g.luns
        invariant |luns| == lun && log == [] && LunsTyped(luns)
        invariant forall i :: 0 <= i < lun ==> LunInv(g.pages, g.blocks, luns[i]) && Entered(md[i], bbt[i], g.blocks, luns[i])
      {
        var l := ListCreate(md[lun], bbt[lun]);
        luns := luns + [l];
      }
      start := (b: Blk) => if b.lun < |md| && b.blk < |md[b.lun]| then md[b.lun][b.blk].currentPg else 0;
      FreshLog(g, luns, md, bbt, start);
      ghost var built := luns;
      retired := seq(g.luns, i requires 0 <= i < g.luns => built[i].retired);
      line := seq(LINES, _ => Line(0, 0, seq(g.lineSize, _ => Blk(0, 0))));
    }

    /** One plane of a block is erased, or fails to. */
    method ErasePlane() returns (failed: bool)
      modifies this`faults, this`erases
      ensures if failed then faults == old(faults) + 1 && erases == old(erases)
              else faults == old(faults) && erases == old(erases) + 1
    {
      failed := *;
      if failed {
        faults := faults + 1;
      } else {
        erases := erases + 1;
      }
    }

    /** Erases the planes of a block up to the first that fails. */
    method EraseBlock() returns (failed: bool)
      modifies this`faults, this`erases
      ensures if failed then faults == old(faults) + 1 && erases < old(erases) + g.planes
              else faults == old(faults) && erases == old(erases) + g.planes
      ensures old(erases) <= erases
    {
      failed := false;
      var pl := 0;
      while pl < g.planes && !failed
        invariant pl <= g.planes
        invariant if failed then faults == old(faults) + 1 && erases == old(erases) + pl - 1 && 0 < pl
                  else faults == old(faults) && erases == old(erases) + pl
      {
        failed := ErasePlane();
        pl := pl + 1;
      }
    }

    /** Moves the first free block of a LUN to the used list and to an open list, then erases it;
        a block that fails to erase leaves the lists again and is marked bad. */
    method OpenBlock(lun: Lun, t: nat) returns (l: Lun, failed: bool)
      requires t < LINES && Counted(lun)
      requires lun.free != [] && lun.free[0] < |lun.md| && lun.free[0] !in lun.used
      modifies this`faults, this`erases
      ensures faults == old(faults) + (if failed then 1 else 0) && old(erases) <= erases
      ensures !failed ==> erases == old(erases) + g.planes
      ensures l == if failed then FailErase(lun, 1) else OpenFirst(lun, t)
    {
      l := lun;
      var b := l.free[0];
      l := l.(free := l.free[1..], used := l.used + [b], open := l.open[t := [b] + l.open[t]]);
      l := l.(nfree := l.nfree - 1, nused := l.nused + 1, nopen := l.nopen[t := l.nopen[t] + 1]);

      failed := EraseBlock();
      if failed {
        l := l.(bad := l.bad + {b});
        l := l.(used := Remove(l.used, b), open := l.open[t := Remove(l.open[t], b)]);
        l := l.(nused := l.nused - 1, nopen := l.nopen[t := l.nopen[t] - 1]);
        RemoveAppended(lun.used, b);
        assert l.open == lun.open && l.nopen == lun.nopen;
        assert lun.free[..1] == [b];
      } else {
        l := l.(md := l.md[b := l.md[b].(used := true, open := true, line := false)]);
        l := l.(md := l.md[b := l.md[b].(meta := false, cold := false, currentPg := 0)]);
        assert l.md == lun.md[b := FreshMd(lun.md[b])];
      }
    }

    /** Gets a new block from a LUN and opens it; a block that fails to erase becomes bad and
        the next one is tried. `k` is the number of blocks that failed. */
    method BlkGet(lun: nat, t: nat) returns (r: Option<nat>, ghost k: nat)
      requires Base() && lun < g.luns && t < LINES
      modifies this`luns, this`log, this`faults, this`erases
      ensures Base()
      ensures GotBlock(old(luns), luns, lun, t, r, k)
      ensures log == old(log) + if r.Some? then [Erased(Blk(lun, r.value))] else []
      ensures faults == old(faults) + k && (r.Some? ==> old(erases) + g.planes <= erases)
      ensures ErasesFree(old(luns), old(log), log)
    {
      hide LogOk, Partition, OpenLists, Waiting, ErasesFree, FailErase, OpenFirst;
      NothingErased(luns, log);
      FreeBlocks(g, luns, lun);
      var l;
      l, r, k := EraseNext(luns[lun], t);
      if r.Some? {
        Opened(g, luns, lun, k, t, log, start);
        EraseOne(luns, lun, r.value, log);
        log := log + [Erased(Blk(lun, r.value))];
      } else {
        Failed(g, luns, lun, k, log, start);
      }
      OpenedKeep(luns[lun], k, t);
      luns := luns[lun := l];
    }

    /** Erases free blocks in order until one works, and opens that one. */
    method EraseNext(l0: Lun, t: nat) returns (l: Lun, r: Option<nat>, ghost k: nat)
      requires Counted(l0) && t < LINES
      requires forall b :: b in l0.free ==> b < |l0.md| && b !in l0.used
      modifies this`faults, this`erases
      ensures k <= |l0.free| && faults == old(faults) + k
      ensures r.None? ==> k == |l0.free| && l == FailErase(l0, k)
      ensures r.Some? ==> k < |l0.free| && r.value == l0.free[k] < |l0.md| && l == OpenFirst(FailErase(l0, k), t)
                          && old(erases) + g.planes <= erases
    {
      k := 0;
      l := l0;
      assert FailErase(l0, 0) == l0;
      while 0 < l.nfree
        invariant k <= |l0.free| && l == FailErase(l0, k) && Counted(l)
        invariant faults == old(faults) + k && old(erases) <= erases
        decreases |l0.free| - k
      {
        var b, failed := l.free[0], false;
        assert l0.free[k] == b && l0.free[k] in l0.free;
        l, failed := OpenBlock(l, t);
        if failed {
          FailTwice(l0, k, 1);
          k := k + 1;
        } else {
          return l, Some(b), k;
        }
      }
      r := None;
    }

    /** The first open block of a LUN that is not in the line being built. */
    method PickOpen(lun: nat, t: nat, ln: seq<Blk>) returns (r: Option<nat>)
      requires LunsOk(g, luns) && lun < g.luns && t < LINES && InLine(luns, t, ln)
      ensures r.Some? ==> InOpen(luns, t, Blk(lun, r.value)) && Blk(lun, r.value) !in ln
      ensures r.None? ==> forall b :: b in luns[lun].open[t] ==> Blk(lun, b) in ln
      ensures luns[lun].open[t] != [] && luns[lun].open[t][0] < |luns[lun].md| && !luns[lun].md[luns[lun].open[t][0]].line ==>
                r == Some(luns[lun].open[t][0])
    {
      var l := luns[lun];
      for i := 0 to |l.open[t]|
        invariant forall j :: 0 <= j < i ==> Blk(lun, l.open[t][j]) in ln
      {
        var b := l.open[t][i];
        assert b in l.open[t];
        assert LunInv(g.pages, g.blocks, l);
        assert b in l.used;
        if !l.md[b].line {
          return Some(b);
        }
        var found, j := false, 0;
        while j < |ln| && !found
          invariant j <= |ln| && (found ==> Blk(lun, b) in ln)
          invariant !found ==> Blk(lun, b) !in ln[..j]
        {
          found := ln[j] == Blk(lun, b);
          j := j + 1;
        }
        if !found {
          return Some(b);
        }
      }
      r := None;
    }

    /** A block of the LUN that may join the line, opening a new one if every open block of the
        LUN is in the line already. */
    method SelectBlock(lun: nat, t: nat, ln: seq<Blk>) returns (r: Option<nat>)
      requires Base() && LunsTyped(luns) && lun < g.luns && t < LINES && InLine(luns, t, ln)
      modifies this`luns, this`log, this`faults, this`erases
      ensures Base() && AllGrown(old(luns), luns, t) && InLine(luns, t, ln)
      ensures luns == old(luns)[lun := luns[lun]] && OnlyErases(old(log), log)
      ensures ErasesFree(old(luns), old(log), log)
      ensures r.Some? ==> InOpen(luns, t, Blk(lun, r.value)) && Blk(lun, r.value) !in ln
      ensures r.None? ==> Exhausted(luns, lun, t, ln) && LunsTyped(luns)
      ensures r.Some? ==> r.value < |luns[lun].md| && LunsTyped(luns[lun := MarkLine(luns[lun], r.value, t)])
    {
      hide InLine, ErasesFree, LogOk, Typed, LunsTyped;
      GrownRefl(luns, t);
      NothingErased(luns, log);
      r := None;
      if luns[lun].open[t] != [] {
        r := PickOpen(lun, t, ln);
        if r.Some? {
          PickedTyped(luns, lun, r.value, t);
        }
      }
      if r.None? {
        var got, k := BlkGet(lun, t);
        GotGrown(g, old(luns), luns, lun, t, got, k);
        InLineGrown(g, old(luns), luns, t, ln);
        GotTyped(g, old(luns), luns, lun, t, got, k);
        if got.None? {
          assert luns[lun].free == [] && luns[lun].open == old(luns)[lun].open;
        } else {
          NewBlock(g, old(luns), luns, lun, t, ln, got.value, k);
          r := PickOpen(lun, t, ln);
        }
      }
    }

    /** One round-robin turn of a LUN: its next block joins the line. */
    method NextBlock(lun: nat, t: nat, ln: seq<Blk>) returns (r: Option<nat>)
      requires Base() && LunsTyped(luns) && lun < g.luns && t < LINES && InLine(luns, t, ln)
      modifies this`luns, this`log, this`faults, this`erases
      ensures Base() && LunsTyped(luns) && AllGrown(old(luns), luns, t)
      ensures luns == old(luns)[lun := luns[lun]] && OnlyErases(old(log), log)
      ensures ErasesFree(old(luns), old(log), log)
      ensures r.Some? ==> InLine(luns, t, ln + [Blk(lun, r.value)])
      ensures r.None? ==> InLine(luns, t, ln) && Exhausted(luns, lun, t, ln)
    {
      hide LunInv, LogOk, AllGrown, InLine, Exhausted, ErasesFree, LunsTyped;
      r := SelectBlock(lun, t, ln);
      if r.Some? {
        ghost var luns1 := luns;
        JoinLine(g, luns, lun, r.value, t, ln, log, start);
        luns := luns[lun := MarkLine(luns[lun], r.value, t)];
        GrownTrans(old(luns), luns1, luns, t);
      }
    }

    /** The LUNs that may still give a block: all of them. */
    method AllLuns(n: nat) returns (avail: set<nat>)
      ensures forall i: nat :: i in avail <==> i < n
    {
      avail := {};
      for l := 0 to n
        invariant forall i: nat :: i in avail <==> i < l
      {
        avail := avail + {l};
      }
    }

    /** Collects blocks round-robin until the line is full or no LUN can give another one. */
    method CollectLine(t: nat) returns (ln: seq<Blk>)
      requires Base() && LunsTyped(luns) && t < LINES
      modifies this`luns, this`log, this`faults, this`erases
      ensures Base() && LunsTyped(luns) && AllGrown(old(luns), luns, t) && OnlyErases(old(log), log)
      ensures |ln| <= g.lineSize && InLine(luns, t, ln) && ErasesFree(old(luns), old(log), log)
      ensures |ln| == g.lineSize || AllExhausted(luns, {}, t, ln)
    {
      hide LunInv, LogOk, AllGrown, InLine, Exhausted, AllExhausted, FreeShrinks, ErasesFree, LunsTyped;
      var lun: nat := 0;
      var avail: set<nat> := AllLuns(g.luns);
      ln := [];
      LineStart(g, luns, avail, t);
      NothingErased(luns, log);
      while |ln| < g.lineSize && avail != {}
        invariant Base() && LunsTyped(luns) && AllGrown(old(luns), luns, t) && OnlyErases(old(log), log)
        invariant lun < g.luns && |ln| <= g.lineSize && InLine(luns, t, ln)
        invariant ErasesFree(old(luns), old(log), log)
        invariant forall l :: l in avail ==> l < g.luns
        invariant AllExhausted(luns, avail, t, ln)
        decreases g.lineSize - |ln|, avail, Ahead(avail, lun, g.luns)
      {
        if lun in avail {
          ghost var luns0, log0 := luns, log;
          GrownShrinks(old(luns), luns0, t);
          var r := NextBlock(lun, t, ln);
          GrownTrans(old(luns), luns0, luns, t);
          ErasesFreeTrans(old(luns), luns0, old(log), log0, log);
          ghost var ln0 := ln;
          if r.Some? {
            ln := ln + [Blk(lun, r.value)];
          }
          TurnKeepsExhausted(luns0, luns, lun, avail, t, ln0, ln);
          if r.None? {
            OneMoreExhausted(luns, lun, avail, t, ln);
            avail := avail - {lun};
          }
        } else {
          SkipLun(avail, lun, g.luns);
        }
        lun := NextLun(lun, g.luns);
      }
    }

    /** Builds the line of type `t` anew from the open blocks of all LUNs, round-robin, opening
        new blocks where a LUN has no further open one. The line is as long as it can be: it is
        full, or no LUN has a free block and every open block of the type is in it. */
    method RenewLine(t: nat) returns (ok: bool)
      requires Base() && LunsTyped(luns) && t < LINES
      modifies this`luns, this`log, this`line, this`faults, this`erases
      ensures Base() && LunsTyped(luns) && AllGrown(old(luns), luns, t) && OnlyErases(old(log), log)
      ensures line == old(line)[t := line[t]] && ErasesFree(old(luns), old(log), log)
      ensures LineOk(g, luns, line[t], t) && (ok <==> 0 < line[t].nblks)
      ensures line[t].nblks == g.lineSize || AllExhausted(luns, {}, t, line[t].vblks[..line[t].nblks])
    {
      var ln := CollectLine(t);
      var vblks := line[t].vblks;
      for i := 0 to |ln|
        invariant |vblks| == g.lineSize && vblks[..i] == ln[..i]
      {
        vblks := vblks[i := ln[i]];
      }
      assert vblks[..|ln|] == ln;
      var current := if |ln| != 0 && |ln| <= line[t].current then 0 else line[t].current;
      line := line[t := Line(|ln|, current, vblks)];
      ok := |ln| != 0;
    }

    /** The sectors of one page, in the order of the write constraints. */
    method PageList(c: Blk, pg: nat) returns (ppas: seq<Ppa>)
      requires g.Sound()
      ensures ppas == PagePpas(g, c, pg)
    {
      ppas := [];
      for pl := 0 to g.planes
        invariant |ppas| == pl * g.sectors
        invariant forall i :: 0 <= i < |ppas| ==> ppas[i] == Ppa(c.lun, c.blk, pg, i / g.sectors, i % g.sectors)
      {
        for sec := 0 to g.sectors
          invariant |ppas| == pl * g.sectors + sec
          invariant forall i :: 0 <= i < |ppas| ==> ppas[i] == Ppa(c.lun, c.blk, pg, i / g.sectors, i % g.sectors)
        {
          DivModUnique(pl * g.sectors + sec, g.sectors, pl, sec);
          ppas := ppas + [Ppa(c.lun, c.blk, pg, pl, sec)];
        }
        assert (pl + 1) * g.sectors == pl * g.sectors + g.sectors;
      }
    }

    /** Takes a block off its open list and clears its OPEN and LINE flags. */
    method BlkClose(c: Blk, t: nat)
      requires c.lun < |luns| && c.blk < |luns[c.lun].md|
      requires t < |luns[c.lun].open| == |luns[c.lun].nopen| && 0 < luns[c.lun].nopen[t]
      modifies this`luns
      ensures luns == old(luns)[c.lun := Close(old(luns[c.lun]), c.blk, t, old(luns[c.lun].md[c.blk].currentPg))]
    {
      var l, b := luns[c.lun], c.blk;
      l := l.(open := l.open[t := Remove(l.open[t], b)]);
      l := l.(nopen := l.nopen[t := l.nopen[t] - 1]);
      if l.md[b].line {
        l := l.(md := l.md[b := l.md[b].(line := false)]);
      }
      if l.md[b].open {
        l := l.(md := l.md[b := l.md[b].(open := false)]);
      }
      assert l.md == luns[c.lun].md[b := luns[c.lun].md[b].(line := false, open := false)];
      luns := luns[c.lun := l];
    }

    /** Hands out the next page of an open block and closes the block with its last page. */
    method TakeFrom(c: Blk, t: nat) returns (ppas: seq<Ppa>, closed: bool)
      requires Base() && LunsTyped(luns) && t < LINES && InOpen(luns, t, c)
      modifies this`luns, this`log
      ensures Base() && LunsTyped(luns)
      ensures var l := old(luns[c.lun]);
              && luns == old(luns)[c.lun := TakePage(g.pages, l, c.blk, t)]
              && log == old(log) + [Programmed(c, l.md[c.blk].currentPg)]
              && ppas == PagePpas(g, c, l.md[c.blk].currentPg)
              && (closed <==> l.md[c.blk].currentPg + 1 == g.pages)
    {
      hide LogOk, Partition, Waiting, PagePpas, Typed, LunsTyped;
      LogTaken(g, luns, log, start, c, t);
      TakenTyped(g, luns, c, t);
      ghost var l0 := luns[c.lun];
      ppas := PageList(c, luns[c.lun].md[c.blk].currentPg);
      log := log + [Programmed(c, luns[c.lun].md[c.blk].currentPg)];

      var l := luns[c.lun];
      l := l.(md := l.md[c.blk := l.md[c.blk].(currentPg := l.md[c.blk].currentPg + 1)]);
      luns := luns[c.lun := l];
      closed := l.md[c.blk].currentPg == g.pages;
      if closed {
        BlkClose(c, t);
        assert luns[c.lun].md == Close(l0, c.blk, t, g.pages).md;
      }
      assert luns == old(luns)[c.lun := TakePage(g.pages, l0, c.blk, t)];
    }

    /** One turn of the allocation loop: a page of the current block, the next block of the
        round, and a new line at the end of a round (or of the request) in which a block closed. */
    method HandOut(t: nat, renew: bool, last: bool) returns (ppas: seq<Ppa>, renew': bool, full: bool)
      requires Base() && LunsTyped(luns) && t < LINES && OtherLinesOk(g, luns, line, t)
      requires LineMid(g, luns, line[t], t, renew) && 0 < line[t].nblks
      modifies this`luns, this`log, this`line, this`faults, this`erases
      ensures Base() && LunsTyped(luns) && OtherLinesOk(g, luns, line, t) && LineMid(g, luns, line[t], t, renew')
      ensures last ==> !renew'
      ensures old(log) <= log && Handed(g, log) == Handed(g, old(log)) + ppas
      ensures |ppas| == g.planes * g.sectors
      ensures full <==> line[t].nblks == 0
      ensures line == old(line)[t := line[t]]
      ensures ErasesFree(old(luns), old(log), log) && FreeShrinks(old(luns), luns)
      ensures full ==> AllExhausted(luns, {}, t, [])
      ensures OneTurn(g.pages, [], old(line[t]), renew, last, Since(old(log), log), line[t], renew')
    {
      hide LunInv, LogOk, ErasesFree, FreeShrinks, Handed, InOpen, AllExhausted, AllGrown, LunsTyped, OneTurn;
      ghost var luns0, log0 := luns, log;
      CurrentOpen(g, luns, line[t], t, renew);
      var c := line[t].vblks[line[t].current];
      var closed: bool;
      ppas, closed := TakeFrom(c, t);
      AfterTake(g, luns0, luns, line, t, c, renew, closed);
      TakeHands(g, luns0, luns, c, t, log0, log);
      renew' := renew || closed;
      ghost var ln, e := line[t], log[|log0|];
      line := line[t := line[t].(current := if line[t].current < line[t].nblks - 1 then line[t].current + 1 else 0)];
      full := false;
      if (line[t].current == 0 || last) && renew' {
        renew' := false;
        ghost var luns1, log1, line1 := luns, log, line;
        var renewed := RenewLine(t);
        AfterRenew(g, luns1, luns, line1, line, t);
        ErasesFreeTrans(luns0, luns1, log0, log1, log);
        GrownShrinks(luns1, luns, t);
        ShrinksTrans(luns0, luns1, luns);
        ErasesHandNothing(g, log1, log);
        full := !renewed;
        assert full ==> line[t].vblks[..0] == [];
      }
      TurnTaken(g.pages, log0, log, ln, renew, last, e, line[t], renew');
    }

    /** Hands out `pgs` pages of the line of type `t`, round-robin. It fails only when the line
        is empty, or when it runs dry with no free block and no open block of the type left. */
    method GetPpas(pgs: nat, t: nat) returns (ok: bool, list: seq<Ppa>)
      requires Valid() && t < LINES
      modifies this`luns, this`log, this`line, this`faults, this`erases
      ensures Valid()
      ensures old(log) <= log && Handed(g, log) == Handed(g, old(log)) + list
      ensures ok ==> |list| == pgs * (g.planes * g.sectors)
      ensures !ok ==> line[t].nblks == 0 && (old(line[t].nblks) == 0 || AllExhausted(luns, {}, t, []))
      ensures old(line[t].nblks) == 0 ==> !ok && list == [] && luns == old(luns) && line == old(line) && log == old(log)
      ensures line == old(line)[t := line[t]]
      ensures ErasesFree(old(luns), old(log), log) && FreeShrinks(old(luns), luns)
      ensures 0 < old(line[t].nblks) ==>
                RoundRobin(g.pages, old(line[t]), old(luns), t, Since(old(log), log), pgs)
    {
      hide LunInv, LogOk, FreeShrinks, ErasesFree, Handed, AllExhausted, InOpen, LunsTyped, OneTurn, RoundRobin, RoundAt;
      NothingErased(luns, log);
      list := [];
      if line[t].nblks < 1 {
        return false, list;
      }
      var renew, left := false, pgs;
      RoundStart(g, luns, line[t], t, pgs);
      assert Since(old(log), log) == [];
      while 0 < left
        invariant Base() && LunsTyped(luns) && OtherLinesOk(g, luns, line, t) && LineMid(g, luns, line[t], t, renew)
        invariant 0 <= left <= pgs && (left == 0 ==> !renew) && (0 < left ==> 0 < line[t].nblks)
        invariant old(log) <= log && Handed(g, log) == Handed(g, old(log)) + list
        invariant |list| == (pgs - left) * (g.planes * g.sectors)
        invariant |line| == LINES && line == old(line)[t := line[t]]
        invariant ErasesFree(old(luns), old(log), log) && FreeShrinks(old(luns), luns)
        invariant RoundRobin(g.pages, old(line[t]), old(luns), t, Since(old(log), log), pgs)
        invariant 0 < left ==> RoundAt(g.pages, old(line[t]), Since(old(log), log), pgs - left, line[t], renew)
      {
        assert (pgs - left + 1) * (g.planes * g.sectors)
            == (pgs - left) * (g.planes * g.sectors) + g.planes * g.sectors;
        var ppas, full;
        ghost var luns0, log0, ln0, renew0 := luns, log, line[t], renew;
        left := left - 1;
        ppas, renew, full := HandOut(t, renew, left == 0);
        TurnAfter(g.pages, old(log), log0, log, ln0, renew0, left == 0, line[t], renew);
        TurnKeeps(g.pages, old(line[t]), old(luns), t, Since(old(log), log0), pgs - left - 1, pgs, ln0, renew0, left == 0,
                  Since(old(log), log), line[t], renew);
        if 0 < left {
          TurnMoves(g.pages, old(line[t]), Since(old(log), log0), pgs - left - 1, ln0, renew0, Since(old(log), log), line[t], renew);
        }
        ErasesFreeTrans(old(luns), luns0, old(log), log0, log);
        ShrinksTrans(old(luns), luns0, luns);
        list := list + ppas;
        if full && 0 < left {
          EmptyLine(g, luns, line, t, renew);
          return false, list;
        }
      }
      AllLines(g, luns, line, t);
      ok := true;
    }

    /** Closes a block of a line by force: it leaves the open list and the line, and its remaining
        pages are given up. A block that is in no line of the type is left alone. */
    method Amend(c: Blk, t: nat) returns (ok: bool)
      requires Valid() && t < LINES
      modifies this`luns, this`log, this`line, this`faults, this`erases
      ensures Valid() && OnlyErases(old(log), log) && ErasesFree(old(luns), old(log), log)
      ensures line == old(line)[t := line[t]]
      ensures ok <==> c in old(line[t].vblks[..line[t].nblks])
      ensures !ok ==> luns == old(luns) && line == old(line) && log == old(log)
      ensures ok ==> c.lun < |luns| && c.blk < |luns[c.lun].md| && luns[c.lun].md[c.blk].currentPg == g.pages
      ensures ok ==> forall u :: 0 <= u < LINES ==> !InOpen(luns, u, c)
    {
      hide LunInv, LogOk, ErasesFree, FreeShrinks, InOpen, AllGrown, NoDup, LunsTyped;
      NothingErased(luns, log);
      ok := FindInLine(c, t);
      if !ok {
        return;
      }
      InLineOpen(g, luns, line[t], t, c);
      ForceClosed(g, luns, line, t, c, log, start);
      ClosedTyped(g, luns, c, t);
      ghost var luns0, log0 := luns, log;
      BlkClose(c, t);
      CloseFrees(luns0, luns, c, t);
      ghost var luns1, line1 := luns, line;
      var renewed := RenewLine(t);
      AfterRenew(g, luns1, luns, line1, line, t);
      ErasesFreeTrans(luns0, luns1, log0, log0, log);
      StaysClosed(g, luns1, luns, t, c);
      AllLines(g, luns, line, t);

      ghost var luns2 := luns;
      PageTyped(luns, c, g.pages);
      var l := luns[c.lun];
      luns := luns[c.lun := l.(md := l.md[c.blk := l.md[c.blk].(currentPg := g.pages)])];
      GivenUp(g, luns2, line, c, log, start);
    }

    /** Whether the block is in the line of type `t`. */
    method FindInLine(c: Blk, t: nat) returns (found: bool)
      requires t < |line| && line[t].nblks <= |line[t].vblks|
      ensures found <==> c in line[t].vblks[..line[t].nblks]
    {
      var i := 0;
      while i < line[t].nblks && line[t].vblks[i] != c
        invariant i <= line[t].nblks && c !in line[t].vblks[..i]
      {
        i := i + 1;
      }
      found := i < line[t].nblks;
      assert found ==> line[t].vblks[..line[t].nblks][i] == c;
    }

    /** Puts a block that is no longer used: it waits for the next checkpoint. A block that is
        not in use (-1) or still open (-2) is refused. */
    method BlkPut(lun: nat, blk: nat) returns (ret: int)
      requires Valid() && lun < g.luns && blk < g.blocks
      requires blk in luns[lun].bad ==> !luns[lun].md[blk].used
      modifies this`luns
      ensures Valid()
      ensures ret in {0, -1, -2}
      ensures ret == -1 <==> !old(luns[lun].md[blk].used)
      ensures ret == -2 <==> old(luns[lun].md[blk].used) && old(luns[lun].md[blk].open)
      ensures ret != 0 ==> luns == old(luns)
      ensures ret == 0 ==> luns == old(luns)[lun := PutWait(old(luns[lun]), blk)]
    {
      if !luns[lun].md[blk].used {
        return -1;
      }
      if luns[lun].md[blk].open {
        return -2;
      }
      PutKeeps(g, luns, line, lun, blk, log, start);
      PutWaitTyped(luns[lun], blk);
      var l := luns[lun];
      l := l.(md := l.md[blk := l.md[blk].(used := false)]);
      l := l.(waiting := [blk] + l.waiting);
      luns := luns[lun := l];
      ret := 0;
    }

    /** Returns the first waiting block of a LUN to the tail of its free list. */
    method ReleaseFirst(lun: nat)
      requires Valid() && lun < g.luns && luns[lun].waiting != []
      modifies this`luns
      ensures Valid()
      ensures luns[lun].waiting == old(luns[lun].waiting)[1..]
      ensures luns[lun].free == old(luns[lun].free) + [old(luns[lun].waiting)[0]]
      ensures luns == old(luns)[lun := luns[lun]] && luns[lun].open == old(luns[lun].open)
    {
      WaitingFirst(g, luns, lun);
      ReleaseKeeps(g, luns, line, lun, log, start);
      ReleaseTyped(g.pages, g.blocks, luns[lun]);
      ghost var l0 := luns[lun];
      var l := luns[lun];
      var b := l.waiting[0];
      l := l.(waiting := l.waiting[1..]);
      l := l.(md := l.md[b := l.md[b].(used := false, line := false, meta := false, cold := false)]);
      l := l.(used := Remove(l.used, b), free := l.free + [b]);
      l := l.(nfree := l.nfree + 1, nused := l.nused - 1);
      assert l == Release(l0);
      luns := luns[lun := l];
    }

    /** Returns every waiting block of a LUN, in order. */
    method ReleaseAll(lun: nat)
      requires Valid() && lun < g.luns
      modifies this`luns
      ensures Valid() && |luns| == |old(luns)| && Released(old(luns)[lun], luns[lun])
      ensures luns == old(luns)[lun := luns[lun]]
    {
      hide LunInv, LogOk, LineOk, LunsTyped;
      ghost var l0 := luns[lun];
      ghost var n := 0;
      while luns[lun].waiting != []
        invariant Valid() && 0 <= n <= |l0.waiting| && lun < |luns| == |old(luns)|
        invariant luns[lun].waiting == l0.waiting[n..]
        invariant luns[lun].free == l0.free + l0.waiting[..n]
        invariant luns[lun].open == l0.open && luns == old(luns)[lun := luns[lun]]
        decreases |luns[lun].waiting|
      {
        ReleaseFirst(lun);
        n := n + 1;
      }
      assert l0.waiting[..n] == l0.waiting;
    }

    /** Releases the blocks waiting for the checkpoint: none waits afterwards, and the free list
        of every LUN gains exactly the blocks that waited. */
    method Checkpoint()
      requires Valid()
      modifies this`luns
      ensures Valid()
      ensures forall i :: 0 <= i < g.luns ==> Released(old(luns)[i], luns[i])
    {
      for lun := 0 to g.luns
        invariant Valid()
        invariant forall i :: 0 <= i < lun ==> Released(old(luns)[i], luns[i])
        invariant forall i :: lun <= i < g.luns ==> luns[i] == old(luns)[i]
      {
        ReleaseAll(lun);
      }
    }

    /** The block is not one that was bad and recorded as used from the start. */
    ghost predicate Puttable(lun: nat, blk: nat)
      reads this
    {
      lun < |retired| && blk !in retired[lun]
    }

    /** Any run of calls on a started channel: the lists and lines stay in order, and no sector
        is handed out twice without an erase of its block in between. A line that is empty stays so. */
    method Serve(calls: seq<Call>)
      requires Valid()
      requires forall i :: 0 <= i < |calls| ==> calls[i].Wf(g)
      requires forall i :: 0 <= i < |calls| && calls[i].Put? ==> Puttable(calls[i].lun, calls[i].blk)
      modifies this`luns, this`log, this`line, this`faults, this`erases
      ensures Valid() && old(log) <= log && ErasedBetween(g, log)
      ensures forall t :: 0 <= t < LINES && old(line)[t].nblks == 0 ==> line[t].nblks == 0
    {
      for i := 0 to |calls|
        invariant Valid() && old(log) <= log
        invariant forall t :: 0 <= t < LINES && old(line)[t].nblks == 0 ==> line[t].nblks == 0
      {
        match calls[i]
        case GetPpas(pgs, t) =>
          var ok, list := GetPpas(pgs, t);
        case ForceClose(c, t) =>
          var ok := Amend(c, t);
        case Put(lun, blk) =>
          var ret := BlkPut(lun, blk);
        case Checkpoint =>
          Checkpoint();
      }
      OrderedErasesBetween(g, start, log);
    }
  }

  /** One LUN with three blocks of one page, one open in each line and none free. */
  function SmallLun(): Lun {
    var m := BlkMd(true, true, true, true, false, false, 0);
    Lun([], [0, 1, 2], [[0], [1], [2]], [], 0, 3, [1, 1, 1], [m, m.(cold := true), m.(meta := true)], {}, {})
  }

  lemma SmallLunOk()
    ensures LunInv(1, 3, SmallLun())
  {
    hide SmallLun, Partition, OpenLists;
    SmallPartition();
    SmallOpen();
  }

  lemma SmallPartition()
    ensures |SmallLun().md| == 3 && Partition(3, SmallLun())
  {
    var l := SmallLun();
    assert l.used[0] == 0 && l.used[1] == 1 && l.used[2] == 2;
  }

  lemma SmallTyped()
    ensures Typed(SmallLun())
  {
    var l := SmallLun();
    assert forall t, b :: 0 <= t < LINES && b in l.open[t] ==> b == t;
    assert l.open[0][0] == 0 && l.open[1][0] == 1 && l.open[2][0] == 2;
  }

  lemma SmallOpen()
    ensures var l := SmallLun();
            |l.md| == 3 && Counted(l) && OpenLists(1, 3, l) && Waiting(3, l)
  {
    var l := SmallLun();
    assert forall t, b :: 0 <= t < LINES && b in l.open[t] ==> b == t;
    assert l.used[0] == 0 && l.used[1] == 1 && l.used[2] == 2;
  }

  /** The three lines of `SmallLun`. */
  function SmallLines(): seq<Line> {
    [Line(1, 0, [Blk(0, 0)]), Line(1, 0, [Blk(0, 1)]), Line(1, 0, [Blk(0, 2)])]
  }

  /** A line that ran dry is dead. Its only block is filled, put back and freed by a checkpoint: the
      line is still empty, and the next request fails although that block is free. */
  method DeadLine() returns (p: Provisioner, ok: bool)
    ensures p.Valid() && p.line[USER].nblks == 0 && p.luns[0].free == [0] && !ok
  {
    hide LunInv, LogOk, SmallLun, SmallLines, LunsTyped;
    p := new Provisioner(Geometry(1, 3, 1, 1, 1, 1));
    p.luns, p.line, p.retired := [SmallLun()], SmallLines(), [{}];
    SmallValid(p.g, p.start);
    var list, closed := p.TakeFrom(Blk(0, 0), USER);
    ghost var luns1, line1 := p.luns, p.line;
    TakenSmall(p.g, luns1);
    var renewed := p.RenewLine(USER);
    AfterRenew(p.g, luns1, p.luns, line1, p.line, USER);
    RunDry(p.g, luns1, p.luns, p.line[USER]);
    NotBad(p.g, p.luns, 0, 0);
    var ret := p.BlkPut(0, 0);
    assert p.luns[0].waiting == [0];
    p.Checkpoint();
    var none;
    ok, none := p.GetPpas(1, USER);
  }

  lemma SmallValid(g: Geometry, start: Blk -> nat)
    requires g == Geometry(1, 3, 1, 1, 1, 1) && forall b :: start(b) == 0
    ensures |SmallLun().md| == 3 && SmallLun().retired == {} && |SmallLines()| == LINES
    ensures LunsTyped([SmallLun()])
    ensures LunsOk(g, [SmallLun()]) && LogOk(g, [SmallLun()], [], start) && InOpen([SmallLun()], USER, Blk(0, 0))
    ensures forall t :: 0 <= t < LINES ==> |SmallLines()[t].vblks| == 1 && LineOk(g, [SmallLun()], SmallLines()[t], t)
  {
    SmallLunOk();
    SmallTyped();
    var l := SmallLun();
    assert 0 in l.open[0] && 1 in l.open[1] && 2 in l.open[2];
  }

  /** Its user block is closed, and nothing is free. */
  lemma TakenSmall(g: Geometry, luns: seq<Lun>)
    requires g == Geometry(1, 3, 1, 1, 1, 1) && luns == [TakePage(1, SmallLun(), 0, USER)]
    ensures var l := luns[0];
            && |l.open| == LINES && l.open[USER] == [] && l.free == [] && l.waiting == [] && |l.md| == 3
            && l.md[0].used && !l.md[0].open
    ensures forall t :: 0 <= t < LINES && t != USER ==> LineOk(g, luns, SmallLines()[t], t)
  {
    var l := luns[0];
    assert 1 in l.open[1] && 2 in l.open[2];
  }

  lemma RunDry(g: Geometry, luns: seq<Lun>, luns': seq<Lun>, ln: Line)
    requires AllGrown(luns, luns', USER) && |luns| == 1 && LineOk(g, luns', ln, USER)
    requires luns[0].open[USER] == [] && luns[0].free == [] && luns[0].waiting == [] && |luns[0].md| == 3
    ensures ln.nblks == 0 && luns'[0].free == [] && luns'[0].waiting == [] && |luns'[0].md| == 3
    ensures luns'[0].md[0].used == luns[0].md[0].used && luns'[0].md[0].open == luns[0].md[0].open
  {
    var l, l' := luns[0], luns'[0];
    assert Grown(l, l', USER);
    NoMembers(l'.free);
    assert 0 < ln.nblks ==> InOpen(luns', USER, ln.vblks[0]);
  }

  /** A block recorded as used is bad only if it was so from the start. */
  lemma NotBad(g: Geometry, luns: seq<Lun>, lun: nat, b: nat)
    requires LunsOk(g, luns) && lun < |luns| && b < g.blocks && b !in luns[lun].retired
    ensures b in luns[lun].bad ==> !luns[lun].md[b].used
  {
    assert LunInv(g.pages, g.blocks, luns[lun]);
  }
}
