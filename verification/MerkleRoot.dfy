/** The Merkle root of a block computed level by level, and what its mutation flag guarantees. */
module MerkleRoot {
  import opened Arithmetic
  import opened MerkleTree

  /** All nodes of one height. */
  function Level(pair: PairHash, ids: seq<Hash>, k: nat): (s: seq<Hash>)
    ensures |s| == Width(|ids|, k)
  {
    seq(Width(|ids|, k), pos requires 0 <= pos < Width(|ids|, k) =>
      (WidthCounts(|ids|, k, pos); CalcHash(pair, ids, k, pos)))
  }

  /** The siblings `2*pos` and `2*pos+1` of height `k` both exist and hash alike. */
  predicate Twins(pair: PairHash, ids: seq<Hash>, k: nat, pos: nat) {
    2 * pos + 1 < Width(|ids|, k) && Level(pair, ids, k)[2 * pos] == Level(pair, ids, k)[2 * pos + 1]
  }

  ghost predicate Mutated(pair: PairHash, ids: seq<Hash>) {
    exists k: nat, pos: nat :: Twins(pair, ids, k, pos)
  }

  lemma NextLevel(pair: PairHash, ids: seq<Hash>, k: nat)
    requires Width(|ids|, k) > 1
    ensures Width(|ids|, k + 1) == (Width(|ids|, k) + 1) / 2
    ensures forall pos :: 0 <= pos < Width(|ids|, k + 1) ==>
      Level(pair, ids, k + 1)[pos] ==
        pair(Level(pair, ids, k)[2 * pos],
             Level(pair, ids, k)[if 2 * pos + 1 < Width(|ids|, k) then 2 * pos + 1 else 2 * pos])
  {
    hide Width, First, CalcHash, RightHash;
    var n := |ids|;
    WidthCounts(n, k, 0);
    Edge(n, k + 1);
    EdgeChild(n, k + 1);
    forall pos | 0 <= pos < Width(n, k + 1)
      ensures Level(pair, ids, k + 1)[pos] ==
        pair(Level(pair, ids, k)[2 * pos],
             Level(pair, ids, k)[if 2 * pos + 1 < Width(n, k) then 2 * pos + 1 else 2 * pos])
    {
      WidthCounts(n, k + 1, pos);
      Children(n, k + 1, pos);
      InnerHash(pair, ids, k + 1, pos);
      if 2 * pos + 1 < Width(n, k) {
        RightHashIs(pair, ids, k + 1, pos);
      } else {
        RightHashIsLeft(pair, ids, k + 1, pos);
      }
    }
  }

  /** Whether two adjacent hashes of a level are equal. */
  method AdjacentTwins(hashes: seq<Hash>) returns (some: bool)
    ensures some <==> exists pos :: 0 <= pos && 2 * pos + 1 < |hashes| && hashes[2 * pos] == hashes[2 * pos + 1]
  {
    some := false;
    var half := 0;
    while 2 * half + 1 < |hashes|
      invariant 0 <= half && 2 * half <= |hashes|
      invariant some <==> exists pos :: 0 <= pos < half && hashes[2 * pos] == hashes[2 * pos + 1]
    {
      if hashes[2 * half] == hashes[2 * half + 1] { some := true; }
      half := half + 1;
    }
  }

  /** Hashes a level's nodes in pairs, the last with itself if it is alone. */
  method HashPairs(pair: PairHash, level: seq<Hash>) returns (hashes: seq<Hash>)
    requires |level| > 0
    ensures |hashes| == (|level| + 1) / 2
    ensures forall pos :: 0 <= pos < |hashes| ==>
      hashes[pos] == pair(level[2 * pos], level[if 2 * pos + 1 < |level| then 2 * pos + 1 else 2 * pos])
  {
    hashes := level;
    if |hashes| % 2 == 1 {
      hashes := hashes + [hashes[|hashes| - 1]];
    }
    var even := hashes;
    var i := 0;
    while i < |even| / 2
      invariant 0 <= i <= |even| / 2 && |hashes| == |even|
      invariant forall pos :: i <= pos < |even| ==> hashes[pos] == even[pos]
      invariant forall pos :: 0 <= pos < i ==> hashes[pos] == pair(even[2 * pos], even[2 * pos + 1])
    {
      hashes := hashes[i := pair(hashes[2 * i], hashes[2 * i + 1])];
      i := i + 1;
    }
    hashes := hashes[..|even| / 2];
  }

  /** The root is that of the recursive tree, and the flag tells whether two siblings anywhere
      in it hash alike. */
  method ComputeMerkleRoot(pair: PairHash, leaves: seq<Hash>) returns (root: Hash, mutated: bool)
    ensures root == if leaves == [] then NULL else MerkleTree.MerkleRoot(pair, leaves)
    ensures mutated <==> Mutated(pair, leaves)
  {
    hide Width, CalcHash, First, Twins;
    var hashes := leaves;
    mutated := false;
    ghost var k := 0;
    LeafLevel(pair, leaves);
    while |hashes| > 1
      invariant hashes == Level(pair, leaves, k)
      invariant HeightFrom(|leaves|, k) == Height(|leaves|)
      invariant mutated <==> exists j: nat, pos: nat :: j < k && Twins(pair, leaves, j, pos)
      decreases |hashes|
    {
      NextLevel(pair, leaves, k);
      var twins := AdjacentTwins(hashes);
      LevelTwins(pair, leaves, k);
      if twins { mutated := true; }
      hashes := HashPairs(pair, hashes);
      k := k + 1;
    }
    NoTwinsAbove(pair, leaves, k);
    if |hashes| == 0 {
      WidthCounts(|leaves|, k, 0);
      FirstIsZero(k);
      return NULL, mutated;
    }
    TopOfTree(pair, leaves, k);
    root := hashes[0];
  }

  lemma FirstIsZero(h: nat)
    ensures First(h, 0) == 0
  {
  }

  lemma LeafLevel(pair: PairHash, ids: seq<Hash>)
    ensures Level(pair, ids, 0) == ids
  {
    assert Width(|ids|, 0) == |ids|;
    forall pos | 0 <= pos < |ids| ensures Level(pair, ids, 0)[pos] == ids[pos] {
      LeafHash(pair, ids, pos);
    }
  }

  lemma LevelTwins(pair: PairHash, ids: seq<Hash>, k: nat)
    ensures (exists pos: nat :: Twins(pair, ids, k, pos)) <==>
      exists pos ::
        0 <= pos && 2 * pos + 1 < Width(|ids|, k) && Level(pair, ids, k)[2 * pos] == Level(pair, ids, k)[2 * pos + 1]
  {
    hide Level, Width;
    if exists pos ::
      0 <= pos && 2 * pos + 1 < Width(|ids|, k) && Level(pair, ids, k)[2 * pos] == Level(pair, ids, k)[2 * pos + 1] {
      var pos :|
        0 <= pos && 2 * pos + 1 < Width(|ids|, k) && Level(pair, ids, k)[2 * pos] == Level(pair, ids, k)[2 * pos + 1];
      assert Twins(pair, ids, k, pos);
    }
  }

  lemma {:induction false} WidthShrinks(n: nat, k: nat, j: nat)
    requires k <= j && Width(n, k) <= 1
    ensures Width(n, j) <= 1
  {
    hide Width, First;
    WidthCounts(n, k, 1);
    WidthCounts(n, j, 1);
    Pow2Grows(k, j);
    assert First(k, 1) == Pow2(k) && First(j, 1) == Pow2(j) by { FirstIsPower(k); FirstIsPower(j); }
  }

  lemma FirstIsPower(h: nat)
    ensures First(h, 1) == Pow2(h)
  {
  }

  lemma NoTwinsAbove(pair: PairHash, ids: seq<Hash>, k: nat)
    requires Width(|ids|, k) <= 1
    ensures forall j: nat, pos: nat :: j >= k ==> !Twins(pair, ids, j, pos)
  {
    forall j: nat, pos: nat | j >= k ensures !Twins(pair, ids, j, pos) {
      WidthShrinks(|ids|, k, j);
    }
  }

  lemma TopOfTree(pair: PairHash, ids: seq<Hash>, k: nat)
    requires ids != [] && Width(|ids|, k) == 1 && HeightFrom(|ids|, k) == Height(|ids|)
    ensures Level(pair, ids, k)[0] == MerkleTree.MerkleRoot(pair, ids)
  {
    assert HeightFrom(|ids|, k) == k;
  }

  // ---------------------------------------------------------------- uniqueness

  /** Transaction ids are hashes of something other than a pair of hashes. */
  ghost predicate Leafy(pair: PairHash, ids: seq<Hash>) {
    forall i, x, y :: 0 <= i < |ids| ==> ids[i] != pair(x, y)
  }

  /** Below nodes with equal hashes, a longer list without twins has the same leaves. */
  lemma {:induction false} SameLeaves(pair: PairHash, a: seq<Hash>, b: seq<Hash>, h: nat, pos: nat)
    requires Injective(pair) && !Mutated(pair, b)
    requires First(h, pos) < |a| <= |b|
    requires CalcHash(pair, a, h, pos) == CalcHash(pair, b, h, pos)
    ensures End(|a|, h, pos) == End(|b|, h, pos)
    ensures forall p :: First(h, pos) <= p < End(|a|, h, pos) ==> a[p] == b[p]
    decreases h
  {
    hide First, End, Width, CalcHash, RightHash, Injective, Mutated;
    if h == 0 {
      SameLeaf(pair, a, b, pos);
    } else {
      Children(|a|, h, pos);
      Children(|b|, h, pos);
      InnerHash(pair, a, h, pos);
      InnerHash(pair, b, h, pos);
      Injectivity(pair, CalcHash(pair, a, h - 1, 2 * pos), RightHash(pair, a, h, pos),
                        CalcHash(pair, b, h - 1, 2 * pos), RightHash(pair, b, h, pos));
      SameLeaves(pair, a, b, h - 1, 2 * pos);
      WidthCounts(|a|, h - 1, 2 * pos + 1);
      WidthCounts(|b|, h - 1, 2 * pos + 1);
      if 2 * pos + 1 < Width(|a|, h - 1) {
        RightHashIs(pair, a, h, pos);
        RightHashIs(pair, b, h, pos);
        SameLeaves(pair, a, b, h - 1, 2 * pos + 1);
      } else if 2 * pos + 1 < Width(|b|, h - 1) {
        RightHashIsLeft(pair, a, h, pos);
        RightHashIs(pair, b, h, pos);
        TwinsMutate(pair, b, h - 1, pos);
      }
    }
  }

  lemma SameLeaf(pair: PairHash, a: seq<Hash>, b: seq<Hash>, pos: nat)
    requires First(0, pos) < |a| <= |b| && CalcHash(pair, a, 0, pos) == CalcHash(pair, b, 0, pos)
    ensures First(0, pos) == pos && End(|a|, 0, pos) == End(|b|, 0, pos) == pos + 1 && a[pos] == b[pos]
  {
    LeafSpan(|a|, pos);
    LeafSpan(|b|, pos);
    LeafHash(pair, a, pos);
    LeafHash(pair, b, pos);
  }

  lemma TwinsMutate(pair: PairHash, ids: seq<Hash>, k: nat, pos: nat)
    requires 2 * pos + 1 < Width(|ids|, k)
    requires First(k, 2 * pos) < |ids| && First(k, 2 * pos + 1) < |ids|
    requires CalcHash(pair, ids, k, 2 * pos) == CalcHash(pair, ids, k, 2 * pos + 1)
    ensures Mutated(pair, ids)
  {
    assert Twins(pair, ids, k, pos);
  }

  /** Trees of different heights over leaves have different left edges. */
  lemma {:induction false} HeightsAgree(pair: PairHash, a: seq<Hash>, b: seq<Hash>, g: nat, h: nat)
    requires Injective(pair) && Leafy(pair, a) && g < h
    requires First(g, 0) < |a| && First(h, 0) < |b|
    ensures CalcHash(pair, a, g, 0) != CalcHash(pair, b, h, 0)
    decreases g
  {
    hide Width, RightHash, Injective;
    InnerHash(pair, b, h, 0);
    if g == 0 {
      LeafHash(pair, a, 0);
    } else {
      InnerHash(pair, a, g, 0);
      HeightsAgree(pair, a, b, g - 1, h - 1);
      if CalcHash(pair, a, g, 0) == CalcHash(pair, b, h, 0) {
        Injectivity(pair, CalcHash(pair, a, g - 1, 0), RightHash(pair, a, g, 0),
                          CalcHash(pair, b, h - 1, 0), RightHash(pair, b, h, 0));
      }
    }
  }

  /** What the mutation flag is for: without hash collisions, two lists of transaction ids that
      both pass the check have the same root only if they are the same list. */
  lemma UnmutatedRootIsUnique(pair: PairHash, a: seq<Hash>, b: seq<Hash>)
    requires Injective(pair) && a != [] && b != []
    requires Leafy(pair, a) && Leafy(pair, b) && !Mutated(pair, a) && !Mutated(pair, b)
    ensures MerkleTree.MerkleRoot(pair, a) == MerkleTree.MerkleRoot(pair, b) ==> a == b
  {
    hide Injective, Leafy, Mutated, First, End, CalcHash, Height;
    if MerkleTree.MerkleRoot(pair, a) == MerkleTree.MerkleRoot(pair, b) {
      var g, h := Height(|a|), Height(|b|);
      HeightIsLeast(|a|);
      HeightIsLeast(|b|);
      if g < h {
        HeightsAgree(pair, a, b, g, h);
      } else if h < g {
        HeightsAgree(pair, b, a, h, g);
      } else if |a| <= |b| {
        SameLeaves(pair, a, b, g, 0);
        FirstIsZero(g);
      } else {
        SameLeaves(pair, b, a, g, 0);
        FirstIsZero(g);
      }
    }
  }

  /** Without the check it fails: the last of three transactions can be repeated unseen. */
  lemma DuplicateKeepsRoot(pair: PairHash, x: Hash, y: Hash, z: Hash)
    ensures MerkleTree.MerkleRoot(pair, [x, y, z]) == MerkleTree.MerkleRoot(pair, [x, y, z, z])
    ensures Mutated(pair, [x, y, z, z])
  {
    hide Height;
    var a, b := [x, y, z], [x, y, z, z];
    assert Pow2(0) == 1 && Pow2(1) == 2 && Pow2(2) == 4;
    HeightIsLeast(3);
    HeightIsLeast(4);
    HeightOf(3, 2);
    HeightOf(4, 2);
    assert Width(3, 0) == 3 && Width(4, 0) == 4 && Width(3, 1) == 2 && Width(4, 1) == 2;
    InnerHash(pair, a, 2, 0);
    InnerHash(pair, b, 2, 0);
    InnerHash(pair, a, 1, 0);
    InnerHash(pair, b, 1, 0);
    InnerHash(pair, a, 1, 1);
    InnerHash(pair, b, 1, 1);
    TwinsMutate(pair, b, 0, 1);
  }

  lemma HeightOf(n: nat, h: nat)
    requires n > 0 && n <= Pow2(h) && (h > 0 ==> Pow2(h - 1) < n)
    ensures Height(n) == h
  {
    HeightIsLeast(n);
    if Height(n) < h {
      Pow2Grows(Height(n), h - 1);
    }
  }
}
