/** Flags packed eight to a byte, least significant bit first. */
module ByteFlags {

  function Mask(k: nat): bv8
    requires k < 8
  {
    if k == 0 then 1 else if k == 1 then 2 else if k == 2 then 4 else if k == 3 then 8
    else if k == 4 then 16 else if k == 5 then 32 else if k == 6 then 64 else 128
  }

  predicate BitSet(b: bv8, k: nat)
    requires k < 8
  {
    b & Mask(k) != 0
  }

  lemma OrSets(b: bv8, j: nat, k: nat)
    requires j < 8 && k < 8
    ensures BitSet(b | Mask(j), k) <==> j == k || BitSet(b, k)
  {
    hide Mask;
    MasksApart(Mask(j), Mask(k), b);
    MaskBits(j, k);
    OrZero(b & Mask(k), Mask(j) & Mask(k));
  }

  lemma MaskBits(j: nat, k: nat)
    requires j < 8 && k < 8
    ensures Mask(j) & Mask(k) != 0 <==> j == k
  {
  }

  lemma OrZero(a: bv8, b: bv8)
    ensures a | b == 0 <==> a == 0 && b == 0
  {
  }

  lemma MasksApart(m: bv8, k: bv8, b: bv8)
    ensures (b | m) & k == (b & k) | (m & k)
  {
  }

  predicate FlagAt(bytes: seq<bv8>, q: nat)
    requires q < 8 * |bytes|
  {
    BitSet(bytes[q / 8], q % 8)
  }

  lemma FlagSet(bytes: seq<bv8>, p: nat, q: nat)
    requires p < 8 * |bytes| && q < 8 * |bytes|
    ensures FlagAt(bytes[p / 8 := bytes[p / 8] | Mask(p % 8)], q) <==> q == p || FlagAt(bytes, q)
  {
    hide BitSet, Mask;
    OrSets(bytes[p / 8], p % 8, q % 8);
    assert p == 8 * (p / 8) + p % 8 && q == 8 * (q / 8) + q % 8;
  }

  lemma AndClears(b: bv8, j: nat, k: nat)
    requires j < 8 && k < 8
    ensures BitSet(b & !Mask(j), k) <==> j != k && BitSet(b, k)
  {
    hide Mask;
    MaskBits(j, k);
    if j == k {
      ClearSame(b, Mask(k));
    } else {
      ClearApart(b, Mask(j), Mask(k));
    }
  }

  lemma ClearSame(b: bv8, m: bv8)
    ensures b & !m & m == 0
  {
  }

  lemma ClearApart(b: bv8, m: bv8, k: bv8)
    requires m & k == 0
    ensures b & !m & k == b & k
  {
  }

  lemma FlagCleared(bytes: seq<bv8>, p: nat, q: nat)
    requires p < 8 * |bytes| && q < 8 * |bytes|
    ensures FlagAt(bytes[p / 8 := bytes[p / 8] & !Mask(p % 8)], q) <==> q != p && FlagAt(bytes, q)
  {
    hide BitSet, Mask;
    AndClears(bytes[p / 8], p % 8, q % 8);
    assert p == 8 * (p / 8) + p % 8 && q == 8 * (q / 8) + q % 8;
  }

  lemma FullByte(k: nat)
    requires k < 8
    ensures BitSet(0xFF, k)
  {
  }
}
