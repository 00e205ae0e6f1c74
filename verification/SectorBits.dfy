/** The byte of sector bits that block metadata keeps per plane page. */
module SectorBits {
  /** Number of set bits. */
  function Pop(b: bv8): nat {
    Bit(b, 0) + Bit(b, 1) + Bit(b, 2) + Bit(b, 3) + Bit(b, 4) + Bit(b, 5) + Bit(b, 6) + Bit(b, 7)
  }

  function Bit(b: bv8, i: nat): nat
    requires i < 8
  {
    if b & Mask(i) == 0 then 0 else 1
  }

  /** 1 << i. */
  function Mask(i: nat): bv8
    requires i < 8
  {
    [1, 2, 4, 8, 16, 32, 64, 128][i]
  }

  /** (uint8_t) ((1 << n) - 1): all sectors of a plane page. */
  function AllSet(n: nat): bv8
    requires n <= 8
  {
    [0, 1, 3, 7, 15, 31, 63, 127, 255][n]
  }

  /** The test and the setting of a sector's bit. */
  predicate IsSet(b: bv8, i: nat)
    requires i < 8
  {
    b & Mask(i) != 0
  }

  function WithBit(b: bv8, i: nat): bv8
    requires i < 8
  {
    b | Mask(i)
  }

  /** No bit beyond the sectors of the page. */
  predicate Within(b: bv8, n: nat)
    requires n <= 8
  {
    b & AllSet(n) == b
  }

  lemma SetBit(b: bv8, i: nat, n: nat)
    requires i < n <= 8 && Within(b, n) && !IsSet(b, i)
    ensures Within(WithBit(b, i), n) && Pop(WithBit(b, i)) == Pop(b) + 1 && IsSet(WithBit(b, i), i)
  {
    MaskWithin(b, i, n);
    BitAfter(b, i, i);
    forall j | 0 <= j < 8 ensures Bit(b | Mask(i), j) == if j == i then 1 else Bit(b, j) {
      BitAfter(b, i, j);
    }
    PopOneMore(b, b | Mask(i), i);
  }

  lemma PopOneMore(b: bv8, c: bv8, i: nat)
    requires i < 8 && Bit(b, i) == 0
    requires forall j :: 0 <= j < 8 ==> Bit(c, j) == if j == i then 1 else Bit(b, j)
    ensures Pop(c) == Pop(b) + 1
  {
    hide Bit;
    assert forall j :: 0 <= j < 8 ==> Bit(c, j) == if j == i then 1 else Bit(b, j);
  }

  lemma BitAfter(b: bv8, i: nat, j: nat)
    requires i < 8 && j < 8
    ensures Bit(b | Mask(i), j) == if j == i then 1 else Bit(b, j)
    ensures (b | Mask(i)) & Mask(i) != 0
    ensures b & Mask(i) == 0 ==> Bit(b, i) == 0
  {
    OtherBit(b, i, j);
    OtherBit(b, i, i);
    assert Mask(j) != 0 && Mask(i) != 0;
  }

  lemma Distribute(a: bv8, b: bv8, c: bv8)
    ensures (a | b) & c == (a & c) | (b & c)
  {
  }

  lemma OtherBit(b: bv8, i: nat, j: nat)
    requires i < 8 && j < 8
    ensures (b | Mask(i)) & Mask(j) == if j == i then Mask(j) else b & Mask(j)
  {
    var m, k := Mask(i), Mask(j);
    if i != j { assert m & k == 0; }
    Distribute(b, m, k);
  }

  /** Setting a bit sets that bit and no other. */
  lemma WithBitSets(b: bv8, i: nat, j: nat)
    requires i < 8 && j < 8
    ensures IsSet(WithBit(b, i), j) <==> IsSet(b, j) || j == i
  {
    OtherBit(b, i, j);
    assert Mask(j) != 0;
  }

  lemma AllSetSets(n: nat, i: nat)
    requires i < n <= 8
    ensures IsSet(AllSet(n), i)
  {
    MaskInside(i, n);
    var m, a := Mask(i), AllSet(n);
    assert m & a == a & m && m != 0;
  }

  lemma MaskWithin(b: bv8, i: nat, n: nat)
    requires i < n <= 8 && Within(b, n)
    ensures Within(b | Mask(i), n)
  {
    var m, a := Mask(i), AllSet(n);
    MaskInside(i, n);
    Distribute(b, m, a);
  }

  lemma MaskInside(i: nat, n: nat)
    requires i < n <= 8
    ensures Mask(i) & AllSet(n) == Mask(i)
  {
    var m := Mask(i);
    if n == 8 {
      assert m & 255 == m;
    } else {
      assert AllSet(n) & AllSet(i + 1) == AllSet(i + 1);
      assert m & AllSet(i + 1) == m;
    }
  }

  lemma AllSetFacts(n: nat)
    requires n <= 8
    ensures Pop(AllSet(n)) == n && Within(AllSet(n), n) && (0 < n ==> AllSet(n) != 0)
  {
  }

  lemma NoneSet(n: nat)
    requires n <= 8
    ensures Pop(0) == 0 && Within(0, n)
  {
  }

  lemma SmallBytes()
    ensures Pop(0) == 0 && Pop(1) == 1 && Pop(15) == 4 && AllSet(4) == 15
    ensures Within(0, 4) && Within(1, 4) && Within(15, 4)
  {
  }

  /** A byte within n sectors has at most n bits, and n only when all are set. */
  lemma PopBound(b: bv8, n: nat)
    requires n <= 8 && Within(b, n)
    ensures Pop(b) <= n && (Pop(b) == n <==> b == AllSet(n)) && (Pop(b) == 0 <==> b == 0)
  {
    forall j | n <= j < 8 ensures Bit(b, j) == 0 {
      Beyond(b, n, j);
    }
    Extension(b, AllSet(n), n);
    Extension(b, 0, n);
    AllSetFacts(n);
  }

  lemma Beyond(b: bv8, n: nat, j: nat)
    requires n <= j < 8 && Within(b, n)
    ensures b & Mask(j) == 0
  {
    var m, a := Mask(j), AllSet(n);
    assert a & m == 0;
    assert (b & a) & m == b & (a & m);
  }

  lemma Extension(b: bv8, c: bv8, n: nat)
    requires n <= 8
    ensures (forall j :: 0 <= j < 8 ==> Bit(b, j) == Bit(c, j)) ==> b == c
  {
    if forall j :: 0 <= j < 8 ==> Bit(b, j) == Bit(c, j) {
      assert Bit(b, 0) == Bit(c, 0) && Bit(b, 1) == Bit(c, 1) && Bit(b, 2) == Bit(c, 2) && Bit(b, 3) == Bit(c, 3);
      assert Bit(b, 4) == Bit(c, 4) && Bit(b, 5) == Bit(c, 5) && Bit(b, 6) == Bit(c, 6) && Bit(b, 7) == Bit(c, 7);
      assert b & 1 == c & 1 && b & 2 == c & 2 && b & 4 == c & 4 && b & 8 == c & 8;
      assert b & 16 == c & 16 && b & 32 == c & 32 && b & 64 == c & 64 && b & 128 == c & 128;
    }
  }
}
