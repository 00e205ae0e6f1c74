/** Who is responsible for every user sector: an unfinished transaction, one logical block of the
    global map, or nobody (invalidated). */
module SectorLedger {
  /** Entry `i` of the transaction in slot `slot`. */
  datatype Key = Key(slot: nat, i: nat)
  datatype Owner = Held(k: Key) | Mapped(lba: nat) | Invalid
  datatype Entry = Entry(lba: nat, ppa: nat)

  /** The sectors on record with their owners, the sectors held by unfinished transactions, the
      global map (0 means unmapped) and the invalidated sectors. */
  datatype Ledger = Ledger(owner: map<nat, Owner>, held: map<Key, nat>, gl: seq<nat>, invalid: set<nat>)

  ghost predicate IsHeld(l: Ledger, p: nat) { exists k :: k in l.held && l.held[k] == p }
  ghost predicate IsMapped(l: Ledger, p: nat) { p != 0 && p in l.gl }

  /** The owner on record is the owner in fact, in both directions. */
  ghost predicate Sectors(l: Ledger) {
    match l case Ledger(owner, held, gl, invalid) =>
      && 0 !in owner
      && (forall k :: k in held ==> held[k] in owner && owner[held[k]] == Held(k))
      && (forall a :: 0 <= a < |gl| && gl[a] != 0 ==> gl[a] in owner && owner[gl[a]] == Mapped(a))
      && (forall p :: p in invalid ==> p in owner && owner[p] == Invalid)
      && (forall p :: p in owner ==>
            match owner[p]
            case Held(k) => k in held && held[k] == p
            case Mapped(a) => a < |gl| && gl[a] == p
            case Invalid => p in invalid)
  }

  /** Every sector on record is exactly one of held, mapped and invalidated; a mapped one is mapped
      by exactly one logical block, a held one by exactly one transaction entry. */
  lemma ExactlyOne(l: Ledger, p: nat)
    requires Sectors(l) && p in l.owner
    ensures IsHeld(l, p) || IsMapped(l, p) || p in l.invalid
    ensures !(IsHeld(l, p) && IsMapped(l, p)) && !(IsHeld(l, p) && p in l.invalid) && !(IsMapped(l, p) && p in l.invalid)
    ensures forall a, b :: 0 <= a < |l.gl| && 0 <= b < |l.gl| && l.gl[a] == p && l.gl[b] == p ==> a == b
    ensures forall j, k :: j in l.held && k in l.held && l.held[j] == p && l.held[k] == p ==> j == k
  {
    match l.owner[p]
    case Held(k) =>
    case Mapped(a) => assert l.gl[a] in l.gl;
    case Invalid =>
  }

  // ----- The elementary changes -----

  /** A fresh sector is allocated to a transaction entry. */
  ghost function Grant(l: Ledger, k: Key, p: nat): Ledger {
    l.(held := l.held[k := p], owner := l.owner[p := Held(k)])
  }

  /** A fresh sector is given up at once. */
  ghost function Scrap(l: Ledger, p: nat): Ledger {
    l.(owner := l.owner[p := Invalid], invalid := l.invalid + {p})
  }

  /** A held sector becomes the sector of a logical block; the one it replaces is invalidated. */
  ghost function Land(l: Ledger, k: Key, a: nat): Ledger
    requires k in l.held && a < |l.gl|
  {
    var p, prev := l.held[k], l.gl[a];
    var owner := l.owner[p := Mapped(a)];
    l.(held := l.held - {k}, gl := l.gl[a := p],
       owner := if prev == 0 then owner else owner[prev := Invalid],
       invalid := l.invalid + if prev == 0 then {} else {prev})
  }

  /** The held sectors of every slot but `s`. */
  ghost function Without(held: map<Key, nat>, s: nat): map<Key, nat> {
    map k | k in held && k.slot != s :: held[k]
  }

  /** The sectors that slot `s` holds. */
  ghost function HeldBy(held: map<Key, nat>, s: nat): set<nat> {
    set k | k in held && k.slot == s :: held[k]
  }

  /** The sectors of an aborted transaction are invalidated. */
  ghost function DropAll(l: Ledger, s: nat): Ledger {
    l.(held := Without(l.held, s), invalid := l.invalid + HeldBy(l.held, s),
       owner := map p | p in l.owner :: if p in HeldBy(l.held, s) then Invalid else l.owner[p])
  }

  /** Erasing blocks takes invalidated sectors off the record. */
  ghost function Recycle(l: Ledger, ps: set<nat>): Ledger {
    l.(owner := l.owner - ps, invalid := l.invalid - ps)
  }

  lemma GrantKeeps(l: Ledger, k: Key, p: nat)
    requires Sectors(l) && k !in l.held && p != 0 && p !in l.owner
    ensures Sectors(Grant(l, k, p))
  {
  }

  lemma ScrapKeeps(l: Ledger, p: nat)
    requires Sectors(l) && p != 0 && p !in l.owner
    ensures Sectors(Scrap(l, p))
  {
  }

  lemma LandKeeps(l: Ledger, k: Key, a: nat)
    requires Sectors(l) && k in l.held && a < |l.gl|
    ensures Sectors(Land(l, k, a))
  {
    var l', p, prev := Land(l, k, a), l.held[k], l.gl[a];
    assert l.owner[p] == Held(k);
    assert prev != 0 ==> l.owner[prev] == Mapped(a) && prev != p;
    forall b | 0 <= b < |l'.gl| && l'.gl[b] != 0
      ensures l'.gl[b] in l'.owner && l'.owner[l'.gl[b]] == Mapped(b)
    {
      assert b != a ==> l.owner[l.gl[b]] == Mapped(b);
    }
    forall j | j in l'.held ensures l'.held[j] in l'.owner && l'.owner[l'.held[j]] == Held(j) {
      assert l.owner[l.held[j]] == Held(j);
    }
  }

  lemma DropAllKeeps(l: Ledger, s: nat)
    requires Sectors(l)
    ensures Sectors(DropAll(l, s))
  {
    var l' := DropAll(l, s);
    forall k | k in l'.held ensures l'.held[k] in l'.owner && l'.owner[l'.held[k]] == Held(k) {
      assert l.owner[l.held[k]] == Held(k);
    }
  }

  lemma RecycleKeeps(l: Ledger, ps: set<nat>)
    requires Sectors(l) && ps <= l.invalid
    ensures Sectors(Recycle(l, ps))
  {
  }

  // ----- The map under a whole transaction -----

  ghost predicate InMap(gl: seq<nat>, es: seq<Entry>) {
    forall i :: 0 <= i < |es| ==> es[i].lba < |gl|
  }

  /** The map after the entries have been applied in order. */
  ghost function Apply(gl: seq<nat>, es: seq<Entry>): (r: seq<nat>)
    requires InMap(gl, es)
    ensures |r| == |gl|
  {
    if es == [] then gl
    else
      var last := |es| - 1;
      Apply(gl, es[..last])[es[last].lba := es[last].ppa]
  }

  /** The sector that entry `i` replaces. */
  ghost function Replaced(gl: seq<nat>, es: seq<Entry>, i: nat): nat
    requires InMap(gl, es) && i < |es|
  {
    Apply(gl, es[..i])[es[i].lba]
  }

  ghost function Overwritten(gl: seq<nat>, es: seq<Entry>, n: nat): set<nat>
    requires InMap(gl, es) && n <= |es|
  {
    set i | 0 <= i < n && Replaced(gl, es, i) != 0 :: Replaced(gl, es, i)
  }

  lemma OverwrittenStep(gl: seq<nat>, es: seq<Entry>, n: nat)
    requires InMap(gl, es) && 0 < n <= |es|
    ensures var prev := Replaced(gl, es, n - 1);
            Overwritten(gl, es, n) == Overwritten(gl, es, n - 1) + if prev == 0 then {} else {prev}
  {
  }

  lemma {:induction false} ApplyStep(gl: seq<nat>, es: seq<Entry>, i: nat)
    requires InMap(gl, es) && i < |es|
    ensures Apply(gl, es[..i + 1]) == Apply(gl, es[..i])[es[i].lba := es[i].ppa]
    ensures Apply(gl, es[..i]) == Apply(gl, es[..i + 1])[es[i].lba := Replaced(gl, es, i)]
  {
    assert es[..i + 1][..i] == es[..i];
    var before, after := Apply(gl, es[..i]), Apply(gl, es[..i + 1]);
    assert after == before[es[i].lba := es[i].ppa];
    assert before == after[es[i].lba := before[es[i].lba]];
  }

  /** The last write of a logical block wins. */
  lemma {:induction false} ApplyAt(gl: seq<nat>, es: seq<Entry>, a: nat)
    requires InMap(gl, es) && a < |gl|
    ensures (forall i :: 0 <= i < |es| ==> es[i].lba != a) ==> Apply(gl, es)[a] == gl[a]
    ensures forall i :: 0 <= i < |es| && es[i].lba == a && (forall j :: i < j < |es| ==> es[j].lba != a) ==>
              Apply(gl, es)[a] == es[i].ppa
  {
    if es != [] {
      ApplyAt(gl, es[..|es| - 1], a);
    }
  }

  // ----- A transaction taking effect -----

  ghost predicate Ready(l: Ledger, s: nat, es: seq<Entry>) {
    && InMap(l.gl, es)
    && forall i :: 0 <= i < |es| ==> Key(s, i) in l.held && l.held[Key(s, i)] == es[i].ppa
  }

  ghost function LandFirst(l: Ledger, s: nat, es: seq<Entry>, n: nat): Ledger
    requires n <= |es| && Ready(l, s, es)
    ensures var r := LandFirst(l, s, es, n);
            && r.gl == Apply(l.gl, es[..n])
            && r.held == l.held - (set i | 0 <= i < n :: Key(s, i))
  {
    if n == 0 then l
    else
      var l1 := LandFirst(l, s, es, n - 1);
      ApplyStep(l.gl, es, n - 1);
      Land(l1, Key(s, n - 1), es[n - 1].lba)
  }

  /** Committing a transaction: its sectors become mapped, and exactly the sectors it overwrote
      (its own earlier ones included) become invalid. */
  lemma {:induction false} LandFirstKeeps(l: Ledger, s: nat, es: seq<Entry>, n: nat)
    requires Sectors(l) && n <= |es| && Ready(l, s, es)
    ensures Sectors(LandFirst(l, s, es, n))
    ensures LandFirst(l, s, es, n).invalid == l.invalid + Overwritten(l.gl, es, n)
  {
    if n != 0 {
      LandFirstKeeps(l, s, es, n - 1);
      LandKeeps(LandFirst(l, s, es, n - 1), Key(s, n - 1), es[n - 1].lba);
      assert LandFirst(l, s, es, n - 1).gl[es[n - 1].lba] == Replaced(l.gl, es, n - 1);
      OverwrittenStep(l.gl, es, n);
    }
  }

  lemma AllLanded(held: map<Key, nat>, s: nat, n: nat)
    requires forall k :: k in held && k.slot == s ==> k.i < n
    ensures held - (set i | 0 <= i < n :: Key(s, i)) == Without(held, s)
  {
    var gone := set i | 0 <= i < n :: Key(s, i);
    forall k | k in held ensures k in gone <==> k.slot == s {
      assert k.slot == s ==> k == Key(s, k.i);
    }
  }
}
