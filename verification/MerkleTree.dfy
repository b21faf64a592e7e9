/** Merkle trees over the transactions of a block, and the partial trees of BIP 37 that prove
    which of them match a filter. */
module MerkleTree {
  import opened Arithmetic

  /** A 256-bit hash as a number; zero is the null hash. */
  type Hash = nat

  const NULL: Hash := 0

  /** The hash of two hashes side by side. */
  type PairHash = (Hash, Hash) -> Hash

  ghost predicate Injective(pair: PairHash) {
    forall a, b, c, d :: pair(a, b) == pair(c, d) ==> a == c && b == d
  }

  lemma Injectivity(pair: PairHash, a: Hash, b: Hash, c: Hash, d: Hash)
    requires Injective(pair) && pair(a, b) == pair(c, d)
    ensures a == c && b == d
  {
  }

  ghost predicate Distinct(ids: seq<Hash>) {
    forall i, j :: 0 <= i < j < |ids| ==> ids[i] != ids[j]
  }

  // ---------------------------------------------------------------- shape

  /** The first leaf below node `pos` at height `h`. */
  function First(h: nat, pos: nat): nat { pos * Pow2(h) }

  /** The end of the leaves below a node. */
  function End(n: nat, h: nat, pos: nat): (end: nat)
    ensures end <= n
  {
    if First(h, pos + 1) < n then First(h, pos + 1) else n
  }

  /** The number of nodes at a height. */
  function Width(n: nat, h: nat): nat { Div(n + Pow2(h) - 1, Pow2(h)) }

  /** The width as computed in unsigned 32-bit arithmetic. */
  function Width32(n: nat, h: nat): nat { Div((n + Pow2(h) - 1) % TWO_32, Pow2(h)) }

  /** It is the width exactly when the sum does not wrap; up to 2^31 transactions it never does. */
  lemma WidthIn32Bits(n: nat, h: nat)
    requires n < TWO_32 && Pow2(h) <= 0x8000_0000
    ensures Width32(n, h) == Width(n, h) <==> n + Pow2(h) - 1 < TWO_32
    ensures n <= 0x8000_0000 ==> Width32(n, h) == Width(n, h)
  {
    hide Pow2;
    var p, x := Pow2(h), n + Pow2(h) - 1;
    Wrap(x);
    if x >= TWO_32 { DivideLess(x - TWO_32, x, p); }
  }

  lemma Wrap(x: nat)
    requires x < 2 * TWO_32
    ensures x % TWO_32 == if x < TWO_32 then x else x - TWO_32
  {
  }

  lemma DivideLess(y: nat, x: nat, p: nat)
    requires p > 0 && y + p <= x
    ensures y / p < x / p
  {
    var q, r := y / p, x / p;
    assert y == q * p + y % p && x == r * p + x % p;
    assert r <= q ==> r * p <= q * p;
  }

  lemma WidthCounts(n: nat, h: nat, pos: nat)
    ensures pos < Width(n, h) <==> First(h, pos) < n
  {
    QuotientCounts(n, Pow2(h), pos);
  }

  lemma QuotientCounts(n: nat, p: nat, pos: nat)
    requires p > 0
    ensures pos < (n + p - 1) / p <==> pos * p < n
  {
    var w := (n + p - 1) / p;
    assert n + p - 1 == w * p + (n + p - 1) % p;
    if pos < w {
      MultiplyGrows(pos + 1, w, p);
      Distribute(pos, 1, p);
    } else {
      MultiplyGrows(w, pos, p);
    }
  }

  lemma Halves(h: nat, pos: nat)
    requires h > 0
    ensures First(h - 1, 2 * pos) == First(h, pos)
    ensures First(h - 1, 2 * pos + 2) == First(h, pos + 1)
    ensures First(h, pos) < First(h - 1, 2 * pos + 1) < First(h, pos + 1)
  {
    var p := Pow2(h - 1);
    assert Pow2(h) == 2 * p;
    assert (2 * pos) * p == pos * (2 * p);
    assert (2 * pos + 2) * p == (pos + 1) * (2 * p);
    assert (2 * pos + 1) * p == (2 * pos) * p + p;
    assert (2 * pos + 2) * p == (2 * pos + 1) * p + p;
  }

  /** How the leaves below a node divide between its children. */
  lemma Children(n: nat, h: nat, pos: nat)
    requires h > 0 && First(h, pos) < n
    ensures First(h - 1, 2 * pos) == First(h, pos)
    ensures 2 * pos + 1 < Width(n, h - 1) ==>
      First(h - 1, 2 * pos + 1) == End(n, h - 1, 2 * pos) < n && End(n, h - 1, 2 * pos + 1) == End(n, h, pos)
    ensures 2 * pos + 1 >= Width(n, h - 1) ==> End(n, h - 1, 2 * pos) == End(n, h, pos) == n
    ensures First(h, pos) < End(n, h - 1, 2 * pos) <= End(n, h, pos)
  {
    hide First;
    Halves(h, pos);
    WidthCounts(n, h - 1, 2 * pos + 1);
  }

  function HeightFrom(n: nat, h: nat): nat
    decreases n - Pow2(h)
  {
    if Width(n, h) <= 1 then h
    else
      WidthCounts(n, h, 1);
      HeightFrom(n, h + 1)
  }

  /** The height of the whole tree. */
  function Height(n: nat): nat { HeightFrom(n, 0) }

  lemma {:induction false} HeightFromIsLeast(n: nat, h: nat)
    ensures h <= HeightFrom(n, h) && Width(n, HeightFrom(n, h)) <= 1
    ensures forall g :: h <= g < HeightFrom(n, h) ==> Width(n, g) > 1
    decreases n - Pow2(h)
  {
    if Width(n, h) > 1 {
      WidthCounts(n, h, 1);
      HeightFromIsLeast(n, h + 1);
    }
  }

  /** The least height whose span holds all leaves: n <= 2^h, and 2^(h-1) < n unless h is 0. */
  lemma HeightIsLeast(n: nat)
    ensures n <= Pow2(Height(n))
    ensures forall g: nat :: g < Height(n) ==> Pow2(g) < n
    ensures n > 0 ==> First(Height(n), 0) == 0 < n && End(n, Height(n), 0) == n
  {
    HeightFromIsLeast(n, 0);
    WidthCounts(n, Height(n), 1);
    forall g: nat | g < Height(n) ensures Pow2(g) < n {
      WidthCounts(n, g, 1);
    }
  }

  // ---------------------------------------------------------------- the full tree

  function CalcHash(pair: PairHash, ids: seq<Hash>, h: nat, pos: nat): Hash
    requires First(h, pos) < |ids|
    decreases h
  {
    if h == 0 then ids[pos]
    else
      Children(|ids|, h, pos);
      var left := CalcHash(pair, ids, h - 1, 2 * pos);
      var right := if 2 * pos + 1 < Width(|ids|, h - 1) then CalcHash(pair, ids, h - 1, 2 * pos + 1) else left;
      pair(left, right)
  }

  function RightHash(pair: PairHash, ids: seq<Hash>, h: nat, pos: nat): Hash
    requires h > 0 && First(h, pos) < |ids|
  {
    Children(|ids|, h, pos);
    if 2 * pos + 1 < Width(|ids|, h - 1) then CalcHash(pair, ids, h - 1, 2 * pos + 1)
    else CalcHash(pair, ids, h - 1, 2 * pos)
  }

  lemma InnerHash(pair: PairHash, ids: seq<Hash>, h: nat, pos: nat)
    requires h > 0 && First(h, pos) < |ids|
    ensures First(h - 1, 2 * pos) < |ids|
    ensures CalcHash(pair, ids, h, pos) ==
      pair(CalcHash(pair, ids, h - 1, 2 * pos), RightHash(pair, ids, h, pos))
  {
    Children(|ids|, h, pos);
  }

  lemma LeafHash(pair: PairHash, ids: seq<Hash>, pos: nat)
    requires First(0, pos) < |ids|
    ensures CalcHash(pair, ids, 0, pos) == ids[pos]
  {
  }

  /** Two nodes of one height hash alike only if they start with the same id. */
  lemma {:induction false} HashFixesFirst(pair: PairHash, ids: seq<Hash>, h: nat, a: nat, b: nat)
    requires Injective(pair) && First(h, a) < |ids| && First(h, b) < |ids|
    requires CalcHash(pair, ids, h, a) == CalcHash(pair, ids, h, b)
    ensures ids[First(h, a)] == ids[First(h, b)]
    decreases h
  {
    hide Width, CalcHash, RightHash, Injective;
    if h > 0 {
      Children(|ids|, h, a);
      Children(|ids|, h, b);
      InnerHash(pair, ids, h, a);
      InnerHash(pair, ids, h, b);
      Injectivity(pair, CalcHash(pair, ids, h - 1, 2 * a), RightHash(pair, ids, h, a),
                        CalcHash(pair, ids, h - 1, 2 * b), RightHash(pair, ids, h, b));
      HashFixesFirst(pair, ids, h - 1, 2 * a, 2 * b);
    } else {
      LeafHash(pair, ids, a);
      LeafHash(pair, ids, b);
    }
  }

  /** With distinct ids, siblings never hash alike. */
  lemma SiblingsDiffer(pair: PairHash, ids: seq<Hash>, h: nat, pos: nat)
    requires Injective(pair) && Distinct(ids) && First(h, pos + 1) < |ids|
    ensures First(h, pos) < First(h, pos + 1)
    ensures CalcHash(pair, ids, h, pos) != CalcHash(pair, ids, h, pos + 1)
  {
    assert First(h, pos + 1) == First(h, pos) + Pow2(h);
    if CalcHash(pair, ids, h, pos) == CalcHash(pair, ids, h, pos + 1) {
      HashFixesFirst(pair, ids, h, pos, pos + 1);
    }
  }

  function MerkleRoot(pair: PairHash, ids: seq<Hash>): Hash
    requires ids != []
  {
    HeightIsLeast(|ids|);
    CalcHash(pair, ids, Height(|ids|), 0)
  }

  // ---------------------------------------------------------------- building

  predicate AnyMatch(match_: seq<bool>, lo: nat, hi: nat)
    requires hi <= |match_|
  {
    exists p :: lo <= p < hi && match_[p]
  }

  datatype Proof = Proof(bits: seq<bool>, hashes: seq<Hash>)

  function Join(a: Proof, b: Proof): Proof { Proof(a.bits + b.bits, a.hashes + b.hashes) }

  lemma JoinAssociates(a: Proof, b: Proof, c: Proof)
    ensures Join(Join(a, b), c) == Join(a, Join(b, c))
    ensures Join(a, Proof([], [])) == a
  {
  }

  /** Depth first: a bit per node visited, a hash where the descent stops. */
  function Build(pair: PairHash, ids: seq<Hash>, match_: seq<bool>, h: nat, pos: nat): Proof
    requires |match_| == |ids| && First(h, pos) < |ids|
    decreases h
  {
    var some := AnyMatch(match_, First(h, pos), End(|ids|, h, pos));
    if h == 0 || !some then Proof([some], [CalcHash(pair, ids, h, pos)])
    else
      Children(|ids|, h, pos);
      var left := Build(pair, ids, match_, h - 1, 2 * pos);
      var below := if 2 * pos + 1 < Width(|ids|, h - 1)
                   then Join(left, Build(pair, ids, match_, h - 1, 2 * pos + 1)) else left;
      Join(Proof([true], []), below)
  }

  /** The proof for a whole block. */
  function ProofOf(pair: PairHash, ids: seq<Hash>, match_: seq<bool>): Proof
    requires |match_| == |ids| > 0
  {
    HeightIsLeast(|ids|);
    Build(pair, ids, match_, Height(|ids|), 0)
  }

  /** The matched positions from `lo` to `hi`, in order. */
  function Indices(match_: seq<bool>, lo: nat, hi: nat): seq<nat>
    requires lo <= hi <= |match_|
    decreases hi - lo
  {
    if lo == hi then [] else (if match_[lo] then [lo] else []) + Indices(match_, lo + 1, hi)
  }

  function IdsAt(ids: seq<Hash>, indices: seq<nat>): seq<Hash>
    requires forall i :: 0 <= i < |indices| ==> indices[i] < |ids|
  {
    seq(|indices|, i requires 0 <= i < |indices| => ids[indices[i]])
  }

  lemma {:induction false} IndicesSplit(match_: seq<bool>, lo: nat, mid: nat, hi: nat)
    requires lo <= mid <= hi <= |match_|
    ensures Indices(match_, lo, hi) == Indices(match_, lo, mid) + Indices(match_, mid, hi)
    decreases mid - lo
  {
    if lo < mid { IndicesSplit(match_, lo + 1, mid, hi); }
  }

  /** Exactly the matched positions, in increasing order. */
  lemma {:induction false} IndicesAreMatches(match_: seq<bool>, lo: nat, hi: nat)
    requires lo <= hi <= |match_|
    ensures forall i :: 0 <= i < |Indices(match_, lo, hi)| ==>
      lo <= Indices(match_, lo, hi)[i] < hi && match_[Indices(match_, lo, hi)[i]]
    ensures forall i, j :: 0 <= i < j < |Indices(match_, lo, hi)| ==>
      Indices(match_, lo, hi)[i] < Indices(match_, lo, hi)[j]
    ensures forall p :: lo <= p < hi && match_[p] ==> p in Indices(match_, lo, hi)
    decreases hi - lo
  {
    if lo < hi { IndicesAreMatches(match_, lo + 1, hi); }
  }

  lemma NoMatchNoIndex(match_: seq<bool>, lo: nat, hi: nat)
    requires lo <= hi <= |match_|
    ensures AnyMatch(match_, lo, hi) <==> Indices(match_, lo, hi) != []
  {
    IndicesAreMatches(match_, lo, hi);
    if Indices(match_, lo, hi) != [] {
      assert match_[Indices(match_, lo, hi)[0]];
    }
  }

  // ---------------------------------------------------------------- extracting

  /** What a traversal has used and found so far. */
  datatype Cursor = Cursor(bits: nat, hashes: nat, ids: seq<Hash>, indices: seq<nat>, bad: bool)

  datatype Visit = Visit(hash: Hash, c: Cursor)

  function Extract(pair: PairHash, n: nat, p: Proof, h: nat, pos: nat, c: Cursor): (v: Visit)
    ensures v.c.bits >= c.bits && v.c.hashes >= c.hashes && (c.bad ==> v.c.bad)
    ensures c.ids <= v.c.ids && c.indices <= v.c.indices
    decreases h
  {
    if c.bits >= |p.bits| then Visit(NULL, c.(bad := true))
    else
      var some := p.bits[c.bits];
      var c1 := c.(bits := c.bits + 1);
      if h == 0 || !some then
        if c.hashes >= |p.hashes| then Visit(NULL, c1.(bad := true))
        else
          var hash := p.hashes[c.hashes];
          var c2 := c1.(hashes := c.hashes + 1);
          Visit(hash, if h == 0 && some then c2.(ids := c.ids + [hash], indices := c.indices + [pos]) else c2)
      else
        var left := Extract(pair, n, p, h - 1, 2 * pos, c1);
        if 2 * pos + 1 < Width(n, h - 1) then
          var right := Extract(pair, n, p, h - 1, 2 * pos + 1, left.c);
          Visit(pair(left.hash, right.hash), right.c.(bad := right.c.bad || right.hash == left.hash))
        else Visit(pair(left.hash, left.hash), left.c)
  }

  function LeftVisit(pair: PairHash, n: nat, p: Proof, h: nat, pos: nat, c: Cursor): Visit
    requires h > 0
  {
    Extract(pair, n, p, h - 1, 2 * pos, c.(bits := c.bits + 1))
  }

  function RightVisit(pair: PairHash, n: nat, p: Proof, h: nat, pos: nat, c: Cursor): Visit
    requires h > 0
  {
    Extract(pair, n, p, h - 1, 2 * pos + 1, LeftVisit(pair, n, p, h, pos, c).c)
  }

  lemma InnerVisit(pair: PairHash, n: nat, p: Proof, h: nat, pos: nat, c: Cursor)
    requires h > 0 && c.bits < |p.bits| && p.bits[c.bits]
    ensures var left, right := LeftVisit(pair, n, p, h, pos, c), RightVisit(pair, n, p, h, pos, c);
      Extract(pair, n, p, h, pos, c) ==
        if 2 * pos + 1 < Width(n, h - 1)
        then Visit(pair(left.hash, right.hash), right.c.(bad := right.c.bad || right.hash == left.hash))
        else Visit(pair(left.hash, left.hash), left.c)
  {
    hide Width;
    var left := Extract(pair, n, p, h - 1, 2 * pos, c.(bits := c.bits + 1));
    assert left == LeftVisit(pair, n, p, h, pos, c);
    assert Extract(pair, n, p, h - 1, 2 * pos + 1, left.c) == RightVisit(pair, n, p, h, pos, c);
  }

  lemma OuterVisit(pair: PairHash, n: nat, p: Proof, h: nat, pos: nat, c: Cursor)
    requires c.bits < |p.bits| && c.hashes < |p.hashes| && (h == 0 || !p.bits[c.bits])
    ensures Extract(pair, n, p, h, pos, c) == Visit(p.hashes[c.hashes],
      Cursor(c.bits + 1, c.hashes + 1,
             if p.bits[c.bits] then c.ids + [p.hashes[c.hashes]] else c.ids,
             if p.bits[c.bits] then c.indices + [pos] else c.indices, c.bad))
  {
  }

  lemma BrokenVisit(pair: PairHash, n: nat, p: Proof, h: nat, pos: nat, c: Cursor)
    ensures c.bits >= |p.bits| ==> Extract(pair, n, p, h, pos, c) == Visit(NULL, c.(bad := true))
    ensures c.bits < |p.bits| && (h == 0 || !p.bits[c.bits]) && c.hashes >= |p.hashes| ==>
      Extract(pair, n, p, h, pos, c) == Visit(NULL, c.(bits := c.bits + 1, bad := true))
  {
  }

  lemma GoodVisitReads(pair: PairHash, n: nat, p: Proof, h: nat, pos: nat, c: Cursor)
    requires !Extract(pair, n, p, h, pos, c).c.bad
    ensures c.bits < |p.bits| && (h == 0 || !p.bits[c.bits] ==> c.hashes < |p.hashes|)
  {
  }

  /** What a traversal added to its cursor is true of the block: positions increasing between
      `lo` and `hi`, each with the id the block has there. */
  ghost predicate Genuine(ids: seq<Hash>, lo: nat, hi: nat, found: seq<Hash>, indices: seq<nat>) {
    && |found| == |indices|
    && (forall i :: 0 <= i < |indices| ==> lo <= indices[i] < hi <= |ids| && found[i] == ids[indices[i]])
    && (forall i, j :: 0 <= i < j < |indices| ==> indices[i] < indices[j])
  }

  lemma GenuineJoin(ids: seq<Hash>, lo: nat, mid: nat, hi: nat, f1: seq<Hash>, i1: seq<nat>, f2: seq<Hash>,
                    i2: seq<nat>)
    requires lo <= mid <= hi <= |ids|
    requires Genuine(ids, lo, mid, f1, i1) && Genuine(ids, mid, hi, f2, i2)
    ensures Genuine(ids, lo, hi, f1 + f2, i1 + i2)
  {
  }

  /** A subtree whose hash is the block's carries only the block's ids. */
  lemma {:induction false} ExtractSound(pair: PairHash, ids: seq<Hash>, p: Proof, h: nat, pos: nat, c: Cursor)
    requires Injective(pair) && First(h, pos) < |ids|
    requires !Extract(pair, |ids|, p, h, pos, c).c.bad
    requires Extract(pair, |ids|, p, h, pos, c).hash == CalcHash(pair, ids, h, pos)
    requires |c.ids| == |c.indices|
    ensures var c' := Extract(pair, |ids|, p, h, pos, c).c;
      |c'.ids| == |c'.indices| &&
      Genuine(ids, First(h, pos), End(|ids|, h, pos), c'.ids[|c.ids|..], c'.indices[|c.indices|..])
    decreases h
  {
    hide Width, First, End, Extract, CalcHash, RightHash, Injective, Genuine;
    var n := |ids|;
    GoodVisitReads(pair, n, p, h, pos, c);
    if h == 0 || !p.bits[c.bits] {
      OuterSound(pair, ids, p, h, pos, c);
    } else {
      Children(n, h, pos);
      InnerVisit(pair, n, p, h, pos, c);
      InnerHash(pair, ids, h, pos);
      var c1 := c.(bits := c.bits + 1);
      var left := LeftVisit(pair, n, p, h, pos, c);
      if 2 * pos + 1 < Width(n, h - 1) {
        var right := RightVisit(pair, n, p, h, pos, c);
        Injectivity(pair, left.hash, right.hash, CalcHash(pair, ids, h - 1, 2 * pos), RightHash(pair, ids, h, pos));
        RightHashIs(pair, ids, h, pos);
        ExtractSound(pair, ids, p, h - 1, 2 * pos, c1);
        ExtractSound(pair, ids, p, h - 1, 2 * pos + 1, left.c);
        GenuineJoin(ids, First(h, pos), End(n, h - 1, 2 * pos), End(n, h, pos),
          left.c.ids[|c.ids|..], left.c.indices[|c.indices|..],
          right.c.ids[|left.c.ids|..], right.c.indices[|left.c.indices|..]);
        assert right.c.ids[|c.ids|..] == left.c.ids[|c.ids|..] + right.c.ids[|left.c.ids|..];
        assert right.c.indices[|c.indices|..] == left.c.indices[|c.indices|..] + right.c.indices[|left.c.indices|..];
      } else {
        Injectivity(pair, left.hash, left.hash, CalcHash(pair, ids, h - 1, 2 * pos), RightHash(pair, ids, h, pos));
        ExtractSound(pair, ids, p, h - 1, 2 * pos, c1);
      }
    }
  }

  lemma RightHashIs(pair: PairHash, ids: seq<Hash>, h: nat, pos: nat)
    requires h > 0 && First(h, pos) < |ids| && 2 * pos + 1 < Width(|ids|, h - 1)
    ensures First(h - 1, 2 * pos + 1) < |ids|
    ensures RightHash(pair, ids, h, pos) == CalcHash(pair, ids, h - 1, 2 * pos + 1)
  {
    Children(|ids|, h, pos);
  }

  lemma OuterSound(pair: PairHash, ids: seq<Hash>, p: Proof, h: nat, pos: nat, c: Cursor)
    requires First(h, pos) < |ids| && |c.ids| == |c.indices|
    requires c.bits < |p.bits| && c.hashes < |p.hashes| && (h == 0 || !p.bits[c.bits])
    requires Extract(pair, |ids|, p, h, pos, c).hash == CalcHash(pair, ids, h, pos)
    ensures var c' := Extract(pair, |ids|, p, h, pos, c).c;
      |c'.ids| == |c'.indices| &&
      Genuine(ids, First(h, pos), End(|ids|, h, pos), c'.ids[|c.ids|..], c'.indices[|c.indices|..])
  {
    hide Extract;
    OuterVisit(pair, |ids|, p, h, pos, c);
    if h == 0 { LeafSpan(|ids|, pos); }
  }

  lemma LeafSpan(n: nat, pos: nat)
    requires pos < n
    ensures First(0, pos) == pos && End(n, 0, pos) == pos + 1
  {
  }

  // ---------------------------------------------------------------- round trip

  /** The part of a proof a cursor is about to read. */
  ghost predicate Reads(p: Proof, c: Cursor, part: Proof) {
    && c.bits + |part.bits| <= |p.bits| && p.bits[c.bits..c.bits + |part.bits|] == part.bits
    && c.hashes + |part.hashes| <= |p.hashes| && p.hashes[c.hashes..c.hashes + |part.hashes|] == part.hashes
  }

  function Advance(c: Cursor, part: Proof, ids: seq<Hash>, indices: seq<nat>): Cursor {
    Cursor(c.bits + |part.bits|, c.hashes + |part.hashes|, c.ids + ids, c.indices + indices, c.bad)
  }

  lemma ReadsSplit(p: Proof, c: Cursor, a: Proof, b: Proof)
    requires Reads(p, c, Join(a, b))
    ensures Reads(p, c, a)
    ensures forall ids, indices :: Reads(p, Advance(c, a, ids, indices), b)
  {
    var bits := p.bits[c.bits..c.bits + |a.bits| + |b.bits|];
    var hashes := p.hashes[c.hashes..c.hashes + |a.hashes| + |b.hashes|];
    assert bits == a.bits + b.bits && hashes == a.hashes + b.hashes;
    assert p.bits[c.bits..c.bits + |a.bits|] == bits[..|a.bits|];
    assert p.bits[c.bits + |a.bits|..c.bits + |a.bits| + |b.bits|] == bits[|a.bits|..];
    assert p.hashes[c.hashes..c.hashes + |a.hashes|] == hashes[..|a.hashes|];
    assert p.hashes[c.hashes + |a.hashes|..c.hashes + |a.hashes| + |b.hashes|] == hashes[|a.hashes|..];
  }

  /** The ids and positions matched below a node. */
  function Found(match_: seq<bool>, h: nat, pos: nat): seq<nat>
    requires First(h, pos) < |match_|
  {
    SpanOrder(|match_|, h, pos);
    Indices(match_, First(h, pos), End(|match_|, h, pos))
  }

  lemma SpanOrder(n: nat, h: nat, pos: nat)
    requires First(h, pos) < n
    ensures First(h, pos) < End(n, h, pos)
  {
    assert First(h, pos + 1) == First(h, pos) + Pow2(h);
  }

  lemma FoundIn(match_: seq<bool>, h: nat, pos: nat)
    requires First(h, pos) < |match_|
    ensures forall i :: 0 <= i < |Found(match_, h, pos)| ==> Found(match_, h, pos)[i] < |match_|
    ensures AnyMatch(match_, First(h, pos), End(|match_|, h, pos)) <==> Found(match_, h, pos) != []
  {
    SpanOrder(|match_|, h, pos);
    IndicesAreMatches(match_, First(h, pos), End(|match_|, h, pos));
    NoMatchNoIndex(match_, First(h, pos), End(|match_|, h, pos));
  }

  lemma FoundBelow(match_: seq<bool>, h: nat, pos: nat)
    requires h > 0 && First(h, pos) < |match_|
    ensures First(h - 1, 2 * pos) < |match_|
    ensures 2 * pos + 1 < Width(|match_|, h - 1) ==>
      && First(h - 1, 2 * pos + 1) < |match_|
      && Found(match_, h, pos) == Found(match_, h - 1, 2 * pos) + Found(match_, h - 1, 2 * pos + 1)
    ensures 2 * pos + 1 >= Width(|match_|, h - 1) ==> Found(match_, h, pos) == Found(match_, h - 1, 2 * pos)
  {
    hide First, End, Width, Indices;
    var n := |match_|;
    Children(n, h, pos);
    IndicesSplit(match_, First(h, pos), End(n, h - 1, 2 * pos), End(n, h, pos));
  }

  ghost predicate Recovers(pair: PairHash, ids: seq<Hash>, match_: seq<bool>, p: Proof, h: nat, pos: nat, c: Cursor)
    requires |match_| == |ids| && First(h, pos) < |ids|
  {
    FoundIn(match_, h, pos);
    var found := Found(match_, h, pos);
    Extract(pair, |ids|, p, h, pos, c) ==
      Visit(CalcHash(pair, ids, h, pos), Advance(c, Build(pair, ids, match_, h, pos), IdsAt(ids, found), found))
  }

  lemma RecoverLeaf(pair: PairHash, ids: seq<Hash>, match_: seq<bool>, p: Proof, h: nat, pos: nat, c: Cursor)
    requires |match_| == |ids| && First(h, pos) < |ids|
    requires Reads(p, c, Build(pair, ids, match_, h, pos))
    requires h == 0 || !AnyMatch(match_, First(h, pos), End(|ids|, h, pos))
    ensures Recovers(pair, ids, match_, p, h, pos, c)
  {
    hide Extract, CalcHash, First, End, AnyMatch, Width;
    FoundIn(match_, h, pos);
    var found := Found(match_, h, pos);
    var b := Build(pair, ids, match_, h, pos);
    var some := AnyMatch(match_, First(h, pos), End(|ids|, h, pos));
    assert b == Proof([some], [CalcHash(pair, ids, h, pos)]);
    assert p.bits[c.bits] == p.bits[c.bits..c.bits + |b.bits|][0] == some;
    assert p.hashes[c.hashes] == p.hashes[c.hashes..c.hashes + |b.hashes|][0] == CalcHash(pair, ids, h, pos);
    OuterVisit(pair, |ids|, p, h, pos, c);
    if some {
      LeafHash(pair, ids, pos);
      FoundLeaf(match_, pos);
      assert IdsAt(ids, found) == [CalcHash(pair, ids, h, pos)];
    }
  }

  lemma FoundLeaf(match_: seq<bool>, pos: nat)
    requires First(0, pos) < |match_|
    ensures Found(match_, 0, pos) == if match_[pos] then [pos] else []
  {
    LeafSpan(|match_|, pos);
    assert Indices(match_, pos + 1, pos + 1) == [];
  }

  lemma IdsAtJoin(ids: seq<Hash>, a: seq<nat>, b: seq<nat>)
    requires forall i :: 0 <= i < |a| ==> a[i] < |ids|
    requires forall i :: 0 <= i < |b| ==> b[i] < |ids|
    ensures IdsAt(ids, a + b) == IdsAt(ids, a) + IdsAt(ids, b)
  {
  }

  /** Extracting what was built for a subtree recovers its hash and its matches, and uses exactly
      its bits and hashes. */
  lemma {:induction false} BuildRecovers(pair: PairHash, ids: seq<Hash>, match_: seq<bool>, p: Proof, h: nat, pos: nat,
                                         c: Cursor)
    requires Injective(pair) && Distinct(ids)
    requires |match_| == |ids| && First(h, pos) < |ids|
    requires Reads(p, c, Build(pair, ids, match_, h, pos))
    ensures Recovers(pair, ids, match_, p, h, pos, c)
    decreases h, 1
  {
    hide Width, First, End, Found, Reads, IdsAt, AnyMatch, Injective, Distinct, Extract, CalcHash, RightHash, Build;
    var n := |ids|;
    if h == 0 || !AnyMatch(match_, First(h, pos), End(n, h, pos)) {
      RecoverLeaf(pair, ids, match_, p, h, pos, c);
    } else {
      InnerBuild(pair, ids, match_, h, pos);
      RecoverInner(pair, ids, match_, p, h, pos, c);
    }
  }

  function RightBuild(pair: PairHash, ids: seq<Hash>, match_: seq<bool>, h: nat, pos: nat): Proof
    requires h > 0 && |match_| == |ids| && First(h, pos) < |ids|
  {
    Children(|ids|, h, pos);
    if 2 * pos + 1 < Width(|ids|, h - 1) then Build(pair, ids, match_, h - 1, 2 * pos + 1)
    else Proof([], [])
  }

  lemma InnerBuild(pair: PairHash, ids: seq<Hash>, match_: seq<bool>, h: nat, pos: nat)
    requires |match_| == |ids| && First(h, pos) < |ids|
    requires h > 0 && AnyMatch(match_, First(h, pos), End(|ids|, h, pos))
    ensures First(h - 1, 2 * pos) < |ids|
    ensures Build(pair, ids, match_, h, pos) == Join(Proof([true], []),
      Join(Build(pair, ids, match_, h - 1, 2 * pos), RightBuild(pair, ids, match_, h, pos)))
  {
    Children(|ids|, h, pos);
    var left := Build(pair, ids, match_, h - 1, 2 * pos);
    assert Join(left, Proof([], [])) == left;
  }

  lemma RecoverInner(pair: PairHash, ids: seq<Hash>, match_: seq<bool>, p: Proof, h: nat, pos: nat, c: Cursor)
    requires Injective(pair) && Distinct(ids)
    requires h > 0 && |match_| == |ids| && First(h, pos) < |ids| && First(h - 1, 2 * pos) < |ids|
    requires Build(pair, ids, match_, h, pos) == Join(Proof([true], []),
      Join(Build(pair, ids, match_, h - 1, 2 * pos), RightBuild(pair, ids, match_, h, pos)))
    requires Reads(p, c, Build(pair, ids, match_, h, pos))
    ensures Recovers(pair, ids, match_, p, h, pos, c)
    decreases h, 0
  {
    hide Width, First, End, Found, Reads, IdsAt, AnyMatch, Injective, Distinct, Extract, CalcHash, RightHash, Build;
    var n := |ids|;
    FoundIn(match_, h, pos);
    FoundIn(match_, h - 1, 2 * pos);
    FoundBelow(match_, h, pos);
    var b, b1 := Build(pair, ids, match_, h, pos), Build(pair, ids, match_, h - 1, 2 * pos);
    var b2 := RightBuild(pair, ids, match_, h, pos);
    var found1 := Found(match_, h - 1, 2 * pos);
    var c1 := c.(bits := c.bits + 1);
    StepIn(p, c, b);
    ReadsSplit(p, c, Proof([true], []), Join(b1, b2));
    ReadsSplit(p, c1, b1, b2);
    BuildRecovers(pair, ids, match_, p, h - 1, 2 * pos, c1);
    InnerVisit(pair, n, p, h, pos, c);
    InnerHash(pair, ids, h, pos);
    var c2 := Advance(c1, b1, IdsAt(ids, found1), found1);
    if 2 * pos + 1 < Width(n, h - 1) {
      RightHashIs(pair, ids, h, pos);
      FoundIn(match_, h - 1, 2 * pos + 1);
      var found2 := Found(match_, h - 1, 2 * pos + 1);
      BuildRecovers(pair, ids, match_, p, h - 1, 2 * pos + 1, c2);
      SiblingsDiffer(pair, ids, h - 1, 2 * pos);
      IdsAtJoin(ids, found1, found2);
      AdvanceTwice(c, b1, b2, IdsAt(ids, found1), found1, IdsAt(ids, found2), found2);
    } else {
      RightHashIsLeft(pair, ids, h, pos);
      AdvanceTwice(c, b1, b2, IdsAt(ids, found1), found1, [], []);
      assert IdsAt(ids, found1) + [] == IdsAt(ids, found1) && found1 + [] == found1;
    }
  }

  lemma RightHashIsLeft(pair: PairHash, ids: seq<Hash>, h: nat, pos: nat)
    requires h > 0 && First(h, pos) < |ids| && 2 * pos + 1 >= Width(|ids|, h - 1)
    ensures First(h - 1, 2 * pos) < |ids|
    ensures RightHash(pair, ids, h, pos) == CalcHash(pair, ids, h - 1, 2 * pos)
  {
    Children(|ids|, h, pos);
  }

  lemma AdvanceTwice(c: Cursor, a: Proof, b: Proof, ids1: seq<Hash>, i1: seq<nat>, ids2: seq<Hash>, i2: seq<nat>)
    ensures Advance(Advance(c.(bits := c.bits + 1), a, ids1, i1), b, ids2, i2) ==
            Advance(c, Join(Proof([true], []), Join(a, b)), ids1 + ids2, i1 + i2)
  {
  }

  lemma StepIn(p: Proof, c: Cursor, b: Proof)
    requires Reads(p, c, b) && b.bits != [] && b.bits[0]
    ensures c.bits < |p.bits| && p.bits[c.bits]
    ensures Advance(c, Proof([true], []), [], []) == c.(bits := c.bits + 1)
  {
    assert p.bits[c.bits..c.bits + |b.bits|][0] == p.bits[c.bits];
  }

  // ---------------------------------------------------------------- sizes

  /** A subtree stores at most one hash per leaf, at least one bit per hash, and at most one hash
      more than its matches times its height. */
  lemma {:induction false} BuildSize(pair: PairHash, ids: seq<Hash>, match_: seq<bool>, h: nat, pos: nat)
    requires |match_| == |ids| && First(h, pos) < |ids|
    ensures var b := Build(pair, ids, match_, h, pos);
      && 1 <= |b.hashes| <= |b.bits|
      && |b.hashes| <= End(|ids|, h, pos) - First(h, pos)
      && |b.hashes| <= 1 + |Found(match_, h, pos)| * h
    decreases h
  {
    hide Width, First, End, Found, AnyMatch, CalcHash, Build;
    var n := |ids|;
    SpanOrder(n, h, pos);
    FoundIn(match_, h, pos);
    if h == 0 || !AnyMatch(match_, First(h, pos), End(n, h, pos)) {
      OuterBuild(pair, ids, match_, h, pos);
    } else {
      InnerBuild(pair, ids, match_, h, pos);
      Children(n, h, pos);
      FoundBelow(match_, h, pos);
      BuildSize(pair, ids, match_, h - 1, 2 * pos);
      var m, m1 := |Found(match_, h, pos)|, |Found(match_, h - 1, 2 * pos)|;
      if 2 * pos + 1 < Width(n, h - 1) {
        BuildSize(pair, ids, match_, h - 1, 2 * pos + 1);
        Budget(m1, |Found(match_, h - 1, 2 * pos + 1)|, h);
      } else {
        Budget(m1, 0, h);
      }
    }
  }

  lemma OuterBuild(pair: PairHash, ids: seq<Hash>, match_: seq<bool>, h: nat, pos: nat)
    requires |match_| == |ids| && First(h, pos) < |ids|
    requires h == 0 || !AnyMatch(match_, First(h, pos), End(|ids|, h, pos))
    ensures Build(pair, ids, match_, h, pos) ==
      Proof([AnyMatch(match_, First(h, pos), End(|ids|, h, pos))], [CalcHash(pair, ids, h, pos)])
  {
  }

  lemma Budget(m1: nat, m2: nat, h: nat)
    requires h > 0 && m1 + m2 > 0
    ensures 1 + m1 * (h - 1) + 1 + m2 * (h - 1) <= 1 + (m1 + m2) * h
  {
    assert m1 * (h - 1) + m2 * (h - 1) == (m1 + m2) * h - (m1 + m2);
  }

  /** A node whose right child is missing. */
  predicate Lone(n: nat, h: nat, pos: nat) { h > 0 && 2 * pos + 1 >= Width(n, h - 1) }

  /** How many such nodes the descent goes through. */
  function LoneVisits(match_: seq<bool>, h: nat, pos: nat): nat
    requires First(h, pos) < |match_|
    decreases h
  {
    if h == 0 || !AnyMatch(match_, First(h, pos), End(|match_|, h, pos)) then 0
    else
      Children(|match_|, h, pos);
      if Lone(|match_|, h, pos) then 1 + LoneVisits(match_, h - 1, 2 * pos)
      else LoneVisits(match_, h - 1, 2 * pos) + LoneVisits(match_, h - 1, 2 * pos + 1)
  }

  /** Each such node costs one bit over the two per hash a full binary tree would need. */
  lemma {:induction false} BitsPerHash(pair: PairHash, ids: seq<Hash>, match_: seq<bool>, h: nat, pos: nat)
    requires |match_| == |ids| && First(h, pos) < |ids|
    ensures var b := Build(pair, ids, match_, h, pos);
      |b.bits| == 2 * |b.hashes| - 1 + LoneVisits(match_, h, pos)
    decreases h
  {
    hide Width, First, End, AnyMatch, CalcHash, Build;
    if h == 0 || !AnyMatch(match_, First(h, pos), End(|ids|, h, pos)) {
      OuterBuild(pair, ids, match_, h, pos);
    } else {
      InnerBuild(pair, ids, match_, h, pos);
      Children(|ids|, h, pos);
      BitsPerHash(pair, ids, match_, h - 1, 2 * pos);
      if !Lone(|ids|, h, pos) { BitsPerHash(pair, ids, match_, h - 1, 2 * pos + 1); }
    }
  }

  /** Only the last node of a height can lack a right child. */
  lemma {:induction false} InsideIsFull(match_: seq<bool>, h: nat, pos: nat)
    requires First(h, pos + 1) < |match_| && First(h, pos) < |match_|
    ensures LoneVisits(match_, h, pos) == 0
    decreases h
  {
    hide First, End, Width, AnyMatch;
    if h > 0 {
      Halves(h, pos);
      Halves(h, pos + 1);
      Children(|match_|, h, pos);
      WidthCounts(|match_|, h - 1, 2 * pos + 1);
      InsideIsFull(match_, h - 1, 2 * pos);
      InsideIsFull(match_, h - 1, 2 * pos + 1);
    }
  }

  /** No match lies below a node without a right child: checked at the right edge, height by height. */
  predicate EdgeFree(match_: seq<bool>, h: nat)
    requires match_ != []
  {
    forall g :: 1 <= g <= h && EdgeIsLone(|match_|, g) ==> !EdgeMatch(match_, g)
  }

  predicate EdgeIsLone(n: nat, g: nat) { g > 0 && Width(n, g - 1) % 2 == 1 }

  predicate EdgeMatch(match_: seq<bool>, g: nat)
    requires match_ != []
  {
    WidthCounts(|match_|, g, 0);
    AnyMatch(match_, First(g, Width(|match_|, g) - 1), |match_|)
  }

  /** The last node of each height, and how it sits below the last node of the next. */
  lemma Edge(n: nat, h: nat)
    requires n > 0
    ensures Width(n, h) > 0
    ensures First(h, Width(n, h) - 1) < n && End(n, h, Width(n, h) - 1) == n
    ensures h > 0 ==>
      && First(h, Width(n, h) - 1) <= First(h - 1, Width(n, h - 1) - 1)
      && (EdgeIsLone(n, h) <==> Lone(n, h, Width(n, h) - 1))
      && (!EdgeIsLone(n, h) ==> 2 * (Width(n, h) - 1) + 1 == Width(n, h - 1) - 1)
  {
    WidthCounts(n, h, 0);
    var w := Width(n, h);
    WidthCounts(n, h, w - 1);
    WidthCounts(n, h, w);
    if h > 0 {
      EdgeChild(n, h);
      FirstOrder(h - 1, 2 * (w - 1), Width(n, h - 1) - 1);
      Halves(h, w - 1);
    }
  }

  lemma FirstOrder(h: nat, a: nat, b: nat)
    requires a <= b
    ensures First(h, a) <= First(h, b)
  {
    assert b * Pow2(h) == a * Pow2(h) + (b - a) * Pow2(h);
  }

  lemma EdgeChild(n: nat, h: nat)
    requires n > 0 && h > 0 && Width(n, h) > 0
    ensures 2 * (Width(n, h) - 1) + 1 <= Width(n, h - 1) <= 2 * (Width(n, h) - 1) + 2
  {
    hide First, Width;
    var w := Width(n, h);
    WidthCounts(n, h, w - 1);
    WidthCounts(n, h, w);
    Halves(h, w - 1);
    WidthCounts(n, h - 1, 2 * (w - 1));
    WidthCounts(n, h - 1, 2 * (w - 1) + 2);
  }

  lemma EdgeFreeBelow(match_: seq<bool>, h: nat)
    requires match_ != [] && !EdgeMatch(match_, h)
    ensures EdgeFree(match_, h)
    decreases h
  {
    hide First, Width;
    if h > 0 {
      Edge(|match_|, h);
      EdgeFreeBelow(match_, h - 1);
    }
  }

  lemma {:induction false} EdgeDecides(match_: seq<bool>, h: nat)
    requires match_ != []
    ensures Width(|match_|, h) > 0 && First(h, Width(|match_|, h) - 1) < |match_|
    ensures LoneVisits(match_, h, Width(|match_|, h) - 1) == 0 <==> EdgeFree(match_, h)
    decreases h
  {
    hide First, End, Width, AnyMatch;
    var n := |match_|;
    Edge(n, h);
    var pos := Width(n, h) - 1;
    if h > 0 {
      Edge(n, h - 1);
      Children(n, h, pos);
      EdgeDecides(match_, h - 1);
      if !EdgeMatch(match_, h) {
        EdgeFreeBelow(match_, h);
      } else if !EdgeIsLone(n, h) {
        InsideIsFull(match_, h - 1, 2 * pos);
      }
    }
  }

  /** The format's remark that a proof has at most 2N-1 flag bits for N hashes holds exactly when
      no match lies below a node without a right child. */
  lemma BitsBound(pair: PairHash, ids: seq<Hash>, match_: seq<bool>)
    requires |match_| == |ids| > 0
    ensures var b := ProofOf(pair, ids, match_);
      |b.bits| <= 2 * |b.hashes| - 1 <==> EdgeFree(match_, Height(|ids|))
  {
    hide EdgeFree, LoneVisits, Build;
    var n, h := |ids|, Height(|ids|);
    HeightIsLeast(n);
    HeightFromIsLeast(n, 0);
    EdgeDecides(match_, h);
    BitsPerHash(pair, ids, match_, h, 0);
  }

  /** Three transactions, the last one matched: four bits for two hashes. */
  lemma OddTreeOverruns(pair: PairHash, a: Hash, b: Hash, c: Hash)
    ensures var p := ProofOf(pair, [a, b, c], [false, false, true]);
      |p.bits| > 2 * |p.hashes| - 1
  {
    hide Build;
    var match_ := [false, false, true];
    BitsBound(pair, [a, b, c], match_);
    HeightIsLeast(3);
    assert Pow2(0) == 1 && Pow2(1) == 2;
    assert Height(3) >= 1;
    assert Width(3, 0) == 3 && Width(3, 1) == 2 && First(1, 1) == 2;
    assert EdgeIsLone(3, 1);
    assert match_[2];
    assert EdgeMatch(match_, 1);
  }
}
