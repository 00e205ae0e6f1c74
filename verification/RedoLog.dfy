/** What recovery makes of the log (ftl/ox-app/block/oxb-recovery.c): the write records of a
    transaction are collected until its commit record, which applies them to the map. */
module RedoLog {
  import opened SectorLedger

  datatype LogRec = Write(id: nat, lba: nat, ppa: nat) | CommitRec(id: nat)

  /** The writes of transaction `id` that no commit record has applied yet. */
  ghost function Pending(log: seq<LogRec>, id: nat): seq<Entry> {
    if log == [] then []
    else
      var before := Pending(log[..|log| - 1], id);
      match log[|log| - 1]
      case Write(of, lba, ppa) => if of == id then before + [Entry(lba, ppa)] else before
      case CommitRec(of) => if of == id then [] else before
  }

  /** The map after the writes, of which those outside the map fail. */
  ghost function Upserted(gl: seq<nat>, es: seq<Entry>): (r: seq<nat>)
    ensures |r| == |gl|
  {
    if es == [] then gl
    else
      var r, e := Upserted(gl, es[..|es| - 1]), es[|es| - 1];
      if e.lba < |r| then r[e.lba := e.ppa] else r
  }

  /** The map that recovery builds from the map of the last checkpoint and the log. */
  ghost function Recover(gl0: seq<nat>, log: seq<LogRec>): (r: seq<nat>)
    ensures |r| == |gl0|
  {
    if log == [] then gl0
    else
      var rest, last := log[..|log| - 1], log[|log| - 1];
      if last.CommitRec? then Upserted(Recover(gl0, rest), Pending(rest, last.id)) else Recover(gl0, rest)
  }

  lemma {:induction false} UpsertedInMap(gl: seq<nat>, es: seq<Entry>)
    requires InMap(gl, es)
    ensures Upserted(gl, es) == Apply(gl, es)
  {
    if es != [] {
      UpsertedInMap(gl, es[..|es| - 1]);
    }
  }

  lemma AppendRec(gl0: seq<nat>, log: seq<LogRec>, r: LogRec, id: nat)
    ensures var log' := log + [r];
            && Pending(log', id) == (if r.id != id then Pending(log, id)
                                     else if r.CommitRec? then []
                                     else Pending(log, id) + [Entry(r.lba, r.ppa)])
            && Recover(gl0, log') == (if r.Write? then Recover(gl0, log)
                                      else Upserted(Recover(gl0, log), Pending(log, r.id)))
  {
    assert (log + [r])[..|log|] == log;
  }

  // ----- When the records of a transaction stand for its entries -----

  /** No later entry is for the same logical block. */
  ghost predicate Final(es: seq<Entry>, i: nat) {
    i < |es| && forall j :: i < j < |es| ==> es[j].lba != es[i].lba
  }

  /** The write is there and is the last one of its logical block. */
  ghost predicate Stands(w: seq<Entry>, e: Entry) {
    exists n: nat :: Final(w, n) && w[n] == e
  }

  ghost predicate Covered(w: seq<Entry>, es: seq<Entry>) {
    forall n :: 0 <= n < |w| ==> exists i :: 0 <= i < |es| && es[i].lba == w[n].lba
  }

  /** Of every logical block, the last entry of the transaction, once it has a sector, is also the
      last one recorded. */
  ghost predicate Agrees(w: seq<Entry>, es: seq<Entry>) {
    Covered(w, es) && forall i: nat :: Final(es, i) && es[i].ppa != 0 ==> Stands(w, es[i])
  }

  /** An entry gets its sector in turn: not after the last entry of the same logical block. */
  ghost predicate InTurn(es: seq<Entry>, i: nat)
    requires i < |es|
  {
    forall j: nat :: Final(es, j) && j != i && es[j].lba == es[i].lba ==> es[j].ppa == 0
  }

  lemma {:induction false} HasFinal(es: seq<Entry>, i: nat) returns (f: nat)
    requires i < |es|
    ensures i <= f && Final(es, f) && es[f].lba == es[i].lba
    decreases |es| - i
  {
    if Final(es, i) {
      f := i;
    } else {
      var j :| i < j < |es| && es[j].lba == es[i].lba;
      f := HasFinal(es, j);
    }
  }

  /** With every sector allocated, the records that agree have the effect of the entries. */
  lemma AgreeSame(gl: seq<nat>, w: seq<Entry>, es: seq<Entry>)
    requires InMap(gl, es) && Agrees(w, es) && forall i :: 0 <= i < |es| ==> es[i].ppa != 0
    ensures InMap(gl, w) && Apply(gl, w) == Apply(gl, es)
  {
    forall a: nat | a < |gl| ensures InMap(gl, w) && Apply(gl, w)[a] == Apply(gl, es)[a] {
      ApplyAt(gl, w, a);
      ApplyAt(gl, es, a);
      if i: nat :| i < |es| && es[i].lba == a {
        var f := HasFinal(es, i);
        assert Stands(w, es[f]);
      }
    }
    assert Apply(gl, w) == Apply(gl, es);
  }

  /** And only those: where the records do not agree, recovery gets a block wrong on any map. */
  lemma DisagreeDiffers(gl: seq<nat>, w: seq<Entry>, es: seq<Entry>)
    requires InMap(gl, es) && InMap(gl, w) && Covered(w, es) && !Agrees(w, es)
    requires forall i :: 0 <= i < |es| ==> es[i].ppa !in gl
    ensures Apply(gl, w) != Apply(gl, es)
  {
    var i: nat :| Final(es, i) && es[i].ppa != 0 && !Stands(w, es[i]);
    var a := es[i].lba;
    hide Apply, Covered, Agrees;
    ApplyAt(gl, w, a);
    ApplyAt(gl, es, a);
    assert Apply(gl, es)[a] == es[i].ppa;
    if n: nat :| n < |w| && w[n].lba == a {
      var f := HasFinal(w, n);
      assert w[f] != es[i];
      assert Apply(gl, w)[a] == w[f].ppa;
    } else {
      assert Apply(gl, w)[a] == gl[a];
    }
  }

  ghost predicate NewTo(es: seq<Entry>, p: nat) {
    p != 0 && forall i :: 0 <= i < |es| ==> es[i].ppa != p
  }

  lemma FinalFill(es: seq<Entry>, i: nat, p: nat, j: nat)
    requires i < |es|
    ensures Final(es[i := es[i].(ppa := p)], j) <==> Final(es, j)
  {
    var es' := es[i := es[i].(ppa := p)];
    assert forall k :: 0 <= k < |es| ==> es'[k].lba == es[k].lba;
  }

  lemma StandsAppend(w: seq<Entry>, x: Entry, e: Entry)
    ensures Stands(w + [x], e) <==> e == x || (e.lba != x.lba && Stands(w, e))
  {
    var w' := w + [x];
    assert Final(w', |w|) && w'[|w|] == x;
    if e.lba != x.lba && Stands(w, e) {
      var n: nat :| Final(w, n) && w[n] == e;
      assert Final(w', n) && w'[n] == e;
    }
    if e != x && Stands(w', e) {
      var n: nat :| Final(w', n) && w'[n] == e;
      assert n != |w| && w'[|w|].lba != e.lba;
      assert forall k :: 0 <= k < |w| ==> w[k] == w'[k];
      assert Final(w, n) && w[n] == e;
    }
  }

  /** Recording one more allocated entry keeps the agreement exactly if it is done in turn. */
  lemma AgreeFillIff(w: seq<Entry>, es: seq<Entry>, i: nat, p: nat)
    requires i < |es| && es[i].ppa == 0 && NewTo(es, p) && Covered(w, es)
    ensures var w', es' := w + [Entry(es[i].lba, p)], es[i := es[i].(ppa := p)];
            Covered(w', es') && (Agrees(w', es') <==> Agrees(w, es) && InTurn(es, i))
  {
    var x := Entry(es[i].lba, p);
    var w', es' := w + [x], es[i := es[i].(ppa := p)];
    assert es'[i] == x;
    forall n | 0 <= n < |w'| ensures exists k :: 0 <= k < |es'| && es'[k].lba == w'[n].lba {
      if n < |w| {
        var k :| 0 <= k < |es| && es[k].lba == w[n].lba;
        assert es'[k].lba == w'[n].lba;
      }
    }
    forall j: nat ensures Final(es', j) <==> Final(es, j) {
      FinalFill(es, i, p, j);
    }
    forall j: nat | j < |es|
      ensures Stands(w', es'[j]) <==> j == i || (es[j].lba != x.lba && Stands(w, es[j]))
    {
      StandsAppend(w, x, es'[j]);
    }
    if Agrees(w', es') {
      forall j: nat | Final(es, j) && es[j].ppa != 0 ensures es[j].lba != x.lba && Stands(w, es[j]) {
        assert Final(es', j);
      }
    }
    if Agrees(w, es) && InTurn(es, i) {
      forall j: nat | Final(es', j) && es'[j].ppa != 0 ensures Stands(w', es'[j]) {
        assert Final(es, j);
      }
    }
  }

  /** With no logical block twice in a transaction every order is in turn. */
  lemma DistinctInTurn(es: seq<Entry>, i: nat)
    requires i < |es| && forall j, k :: 0 <= j < k < |es| ==> es[j].lba != es[k].lba
    ensures InTurn(es, i)
  {
  }

  /** A block written twice in one transaction, its second entry allocated first: the map gets
      sector 8, recovery sector 7. */
  lemma OutOfTurnExample()
    ensures var es := [Entry(0, 7), Entry(0, 8)];
            var log := [Write(0, 0, 8), Write(0, 0, 7), CommitRec(0)];
            Apply([0], es) == [8] && Recover([0], log) == [7]
  {
    var es := [Entry(0, 7), Entry(0, 8)];
    assert es[..1] == [Entry(0, 7)];
    var w := [Entry(0, 8), Entry(0, 7)];
    assert w[..1] == [Entry(0, 8)];
    AppendRec([0], [], Write(0, 0, 8), 0);
    AppendRec([0], [Write(0, 0, 8)], Write(0, 0, 7), 0);
    var log := [Write(0, 0, 8), Write(0, 0, 7)];
    assert [Write(0, 0, 8)] + [Write(0, 0, 7)] == log;
    assert [] + [Write(0, 0, 8)] == [Write(0, 0, 8)];
    AppendRec([0], log, CommitRec(0), 0);
    assert Pending(log, 0) == w;
  }
}
