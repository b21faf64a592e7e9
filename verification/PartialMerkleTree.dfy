/** The object that carries a partial Merkle tree: built from a block and a match mask, written to
    and read from bytes, and traversed to extract the matched ids. */
module PartialMerkleTree {
  import opened Arithmetic
  import opened ByteFlags
  import opened MerkleTree

  // ---------------------------------------------------------------- flag bits in bytes

  /** Bytes that hold the bits eight to a byte, least significant first, padded with zeros. */
  predicate Packs(bits: seq<bool>, bytes: seq<bv8>) {
    && |bytes| == (|bits| + 7) / 8
    && forall q :: 0 <= q < 8 * |bytes| ==> (FlagAt(bytes, q) <==> q < |bits| && bits[q])
  }

  function Unpack(bytes: seq<bv8>): seq<bool> {
    seq(8 * |bytes|, q requires 0 <= q < 8 * |bytes| => FlagAt(bytes, q))
  }

  method WriteBits(vBits: seq<bool>) returns (bytes: seq<bv8>)
    ensures Packs(vBits, bytes)
  {
    var size := (|vBits| + 7) / 8;
    bytes := seq(size, _ => 0 as bv8);
    var p := 0;
    while p < |vBits|
      invariant 0 <= p <= |vBits| && |bytes| == size
      invariant forall q :: 0 <= q < 8 * size ==> (FlagAt(bytes, q) <==> q < p && vBits[q])
    {
      ghost var was := bytes;
      if vBits[p] {
        bytes := bytes[p / 8 := bytes[p / 8] | Mask(p % 8)];
      }
      forall q | 0 <= q < 8 * size
        ensures FlagAt(bytes, q) <==> q < p + 1 && vBits[q]
      {
        if vBits[p] { FlagSet(was, p, q); }
      }
      p := p + 1;
    }
  }

  method ReadBits(bytes: seq<bv8>) returns (vBits: seq<bool>)
    ensures vBits == Unpack(bytes)
  {
    vBits := [];
    var p := 0;
    while p < 8 * |bytes|
      invariant 0 <= p <= 8 * |bytes|
      invariant vBits == Unpack(bytes)[..p]
    {
      assert Unpack(bytes)[p] == (bytes[p / 8] & Mask(p % 8) != 0);
      assert Unpack(bytes)[..p + 1] == Unpack(bytes)[..p] + [Unpack(bytes)[p]];
      vBits := vBits + [bytes[p / 8] & Mask(p % 8) != 0];
      p := p + 1;
    }
  }

  /** Reading back gives the bits written and at most seven zeros of padding. */
  lemma UnpackPads(bits: seq<bool>, bytes: seq<bv8>)
    requires Packs(bits, bytes)
    ensures bits <= Unpack(bytes) && |Unpack(bytes)| == (|bits| + 7) / 8 * 8
    ensures forall q :: |bits| <= q < |Unpack(bytes)| ==> !Unpack(bytes)[q]
  {
    hide FlagAt;
    assert bits == Unpack(bytes)[..|bits|];
  }

  // ---------------------------------------------------------------- extracting the matches

  datatype Matches = Matches(root: Hash, ids: seq<Hash>, indices: seq<nat>, bad: bool)

  /** The whole verification: size limits, traversal, and everything used up. */
  function ExtractMatches(pair: PairHash, n: nat, p: Proof, bad: bool, indices: seq<nat>): Matches {
    if n == 0 || |p.hashes| > n || |p.bits| < |p.hashes| then Matches(NULL, [], indices, bad)
    else
      var v := Extract(pair, n, p, Height(n), 0, Cursor(0, 0, [], indices, bad));
      var whole := !v.c.bad && (v.c.bits + 7) / 8 == (|p.bits| + 7) / 8 && v.c.hashes == |p.hashes|;
      Matches(if whole then v.hash else NULL, v.c.ids, v.c.indices, v.c.bad)
  }

  /** Whatever proof a peer sends: if it verifies to the root of a block with as many
      transactions, the ids it yields are the block's, at increasing positions. */
  lemma OnlyGenuineMatches(pair: PairHash, ids: seq<Hash>, p: Proof)
    requires Injective(pair) && ids != [] && MerkleRoot(pair, ids) != NULL
    requires ExtractMatches(pair, |ids|, p, false, []).root == MerkleRoot(pair, ids)
    ensures var m := ExtractMatches(pair, |ids|, p, false, []);
      Genuine(ids, 0, |ids|, m.ids, m.indices)
  {
    hide Extract, CalcHash, Injective, Height;
    HeightIsLeast(|ids|);
    ExtractSound(pair, ids, p, Height(|ids|), 0, Cursor(0, 0, [], [], false));
    var m := ExtractMatches(pair, |ids|, p, false, []);
    assert m.ids[0..] == m.ids && m.indices[0..] == m.indices;
  }

  /** Build, pack, unpack and extract: the Merkle root and exactly the matched ids, in order. */
  lemma RoundTrip(pair: PairHash, ids: seq<Hash>, match_: seq<bool>, bytes: seq<bv8>)
    requires Injective(pair) && Distinct(ids) && |match_| == |ids| > 0
    requires Packs(ProofOf(pair, ids, match_).bits, bytes)
    ensures forall i :: 0 <= i < |Indices(match_, 0, |ids|)| ==> Indices(match_, 0, |ids|)[i] < |ids|
    ensures var hashes := ProofOf(pair, ids, match_).hashes;
      ExtractMatches(pair, |ids|, Proof(Unpack(bytes), hashes), false, []) ==
      Matches(MerkleRoot(pair, ids), IdsAt(ids, Indices(match_, 0, |ids|)), Indices(match_, 0, |ids|), false)
  {
    hide Extract, CalcHash, Injective, Distinct, Build, Packs, Height, Unpack, First, End;
    var n, h := |ids|, Height(|ids|);
    HeightIsLeast(n);
    var b := Build(pair, ids, match_, h, 0);
    var p := Proof(Unpack(bytes), b.hashes);
    var c := Cursor(0, 0, [], [], false);
    UnpackPads(b.bits, bytes);
    BuildSize(pair, ids, match_, h, 0);
    assert p.hashes[0..|b.hashes|] == b.hashes && p.bits[0..|b.bits|] == b.bits;
    BuildRecovers(pair, ids, match_, p, h, 0, c);
    FoundIn(match_, h, 0);
    var found := Found(match_, h, 0);
    assert found == Indices(match_, 0, n);
    assert [] + IdsAt(ids, found) == IdsAt(ids, found) && [] + found == found;
  }

  /** The stated size limits of a proof. */
  lemma ProofSize(pair: PairHash, ids: seq<Hash>, match_: seq<bool>)
    requires |match_| == |ids| > 0
    ensures var b := ProofOf(pair, ids, match_);
      && |b.hashes| <= |ids|
      && |b.hashes| <= 1 + |Indices(match_, 0, |ids|)| * Height(|ids|)
  {
    hide Build, CalcHash, Height, First, End;
    HeightIsLeast(|ids|);
    BuildSize(pair, ids, match_, Height(|ids|), 0);
  }

  // ---------------------------------------------------------------- the object

  class Tree {
    const pair: PairHash
    var nTransactions: nat
    var vBits: seq<bool>
    var vHash: seq<Hash>
    var fBad: bool

    function Value(): Proof
      reads this
    {
      Proof(vBits, vHash)
    }

    constructor Empty(pair: PairHash)
      ensures this.pair == pair && nTransactions == 0 && Value() == Proof([], []) && fBad
    {
      this.pair := pair;
      nTransactions, vBits, vHash, fBad := 0, [], [], true;
    }

    /** The proof for the matched transactions of a block. */
    constructor Of(pair: PairHash, vTxid: seq<Hash>, vMatch: seq<bool>)
      requires |vMatch| == |vTxid| > 0
      ensures this.pair == pair && nTransactions == |vTxid| && !fBad
      ensures Value() == ProofOf(pair, vTxid, vMatch)
    {
      this.pair := pair;
      nTransactions, vBits, vHash, fBad := |vTxid|, [], [], false;
      new;
      var nHeight := CalcHeight();
      HeightIsLeast(|vTxid|);
      TraverseAndBuild(nHeight, 0, vTxid, vMatch);
    }

    method CalcHeight() returns (nHeight: nat)
      ensures nHeight == Height(nTransactions)
    {
      nHeight := 0;
      while Width(nTransactions, nHeight) > 1
        invariant HeightFrom(nTransactions, nHeight) == Height(nTransactions)
        decreases nTransactions - Pow2(nHeight)
      {
        WidthCounts(nTransactions, nHeight, 1);
        nHeight := nHeight + 1;
      }
    }

    /** Whether any transaction below a node is matched. */
    method ParentOfMatch(height: nat, pos: nat, vMatch: seq<bool>) returns (some: bool)
      requires |vMatch| == nTransactions && First(height, pos) < nTransactions
      ensures some <==> AnyMatch(vMatch, First(height, pos), End(nTransactions, height, pos))
    {
      some := false;
      var p := First(height, pos);
      while p < First(height, pos + 1) && p < nTransactions
        invariant First(height, pos) <= p <= nTransactions
        invariant p <= End(nTransactions, height, pos)
        invariant some <==> AnyMatch(vMatch, First(height, pos), p)
      {
        SpanOrder(nTransactions, height, pos);
        some := some || vMatch[p];
        p := p + 1;
      }
      SpanOrder(nTransactions, height, pos);
    }

    method TraverseAndBuild(height: nat, pos: nat, vTxid: seq<Hash>, vMatch: seq<bool>)
      requires |vMatch| == |vTxid| == nTransactions && First(height, pos) < nTransactions
      modifies this`vBits, this`vHash
      ensures Value() == Join(old(Value()), Build(pair, vTxid, vMatch, height, pos))
      decreases height
    {
      hide CalcHash, First, End, Width, Build, AnyMatch;
      ghost var was := Value();
      var fParentOfMatch := ParentOfMatch(height, pos, vMatch);
      vBits := vBits + [fParentOfMatch];
      if height == 0 || !fParentOfMatch {
        vHash := vHash + [CalcHash(pair, vTxid, height, pos)];
        OuterBuild(pair, vTxid, vMatch, height, pos);
      } else {
        ghost var here := Proof([true], []);
        assert Value() == Join(was, here);
        Children(nTransactions, height, pos);
        InnerBuild(pair, vTxid, vMatch, height, pos);
        ghost var left := Build(pair, vTxid, vMatch, height - 1, 2 * pos);
        ghost var right := RightBuild(pair, vTxid, vMatch, height, pos);
        TraverseAndBuild(height - 1, 2 * pos, vTxid, vMatch);
        if 2 * pos + 1 < Width(nTransactions, height - 1) {
          TraverseAndBuild(height - 1, 2 * pos + 1, vTxid, vMatch);
        }
        JoinAssociates(Join(was, here), left, right);
        JoinAssociates(was, here, Join(left, right));
        JoinAssociates(left, right, right);
        JoinAssociates(Join(Join(was, here), left), right, right);
      }
    }

    method TraverseAndExtract(height: nat, pos: nat, bitsUsed: nat, hashUsed: nat, match_: seq<Hash>, index: seq<nat>)
      returns (hash: Hash, nBitsUsed: nat, nHashUsed: nat, vMatch: seq<Hash>, vnIndex: seq<nat>)
      modifies this`fBad
      ensures Visit(hash, Cursor(nBitsUsed, nHashUsed, vMatch, vnIndex, fBad)) ==
        Extract(pair, nTransactions, Value(), height, pos, Cursor(bitsUsed, hashUsed, match_, index, old(fBad)))
      decreases height
    {
      hide Width, Extract;
      ghost var c := Cursor(bitsUsed, hashUsed, match_, index, fBad);
      BrokenVisit(pair, nTransactions, Value(), height, pos, c);
      nBitsUsed, nHashUsed, vMatch, vnIndex := bitsUsed, hashUsed, match_, index;
      if nBitsUsed >= |vBits| {
        fBad := true;
        return NULL, nBitsUsed, nHashUsed, vMatch, vnIndex;
      }
      var fParentOfMatch := vBits[nBitsUsed];
      nBitsUsed := nBitsUsed + 1;
      if height == 0 || !fParentOfMatch {
        if nHashUsed >= |vHash| {
          fBad := true;
          return NULL, nBitsUsed, nHashUsed, vMatch, vnIndex;
        }
        OuterVisit(pair, nTransactions, Value(), height, pos, c);
        hash := vHash[nHashUsed];
        nHashUsed := nHashUsed + 1;
        if height == 0 && fParentOfMatch {
          vMatch := vMatch + [hash];
          vnIndex := vnIndex + [pos];
        }
        return;
      }
      InnerVisit(pair, nTransactions, Value(), height, pos, c);
      var left, right;
      left, nBitsUsed, nHashUsed, vMatch, vnIndex :=
        TraverseAndExtract(height - 1, 2 * pos, nBitsUsed, nHashUsed, vMatch, vnIndex);
      if 2 * pos + 1 < Width(nTransactions, height - 1) {
        right, nBitsUsed, nHashUsed, vMatch, vnIndex :=
          TraverseAndExtract(height - 1, 2 * pos + 1, nBitsUsed, nHashUsed, vMatch, vnIndex);
        if right == left { fBad := true; }
      } else {
        right := left;
      }
      hash := pair(left, right);
    }

    /** The root the proof leads to, or the null hash when it does not hold together. */
    method Matched(index: seq<nat>) returns (root: Hash, vMatch: seq<Hash>, vnIndex: seq<nat>)
      modifies this`fBad
      ensures Matches(root, vMatch, vnIndex, fBad) ==
        ExtractMatches(pair, nTransactions, Value(), old(fBad), index)
    {
      vMatch, vnIndex := [], index;
      if nTransactions == 0 || |vHash| > nTransactions || |vBits| < |vHash| {
        return NULL, vMatch, vnIndex;
      }
      var nHeight := CalcHeight();
      var nBitsUsed, nHashUsed;
      root, nBitsUsed, nHashUsed, vMatch, vnIndex := TraverseAndExtract(nHeight, 0, 0, 0, vMatch, vnIndex);
      if fBad || (nBitsUsed + 7) / 8 != (|vBits| + 7) / 8 || nHashUsed != |vHash| {
        root := NULL;
      }
    }
  }
}
