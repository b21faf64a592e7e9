/** Which proofs verify: exactly those that are the flattening of a tree over the block's shape in which no two
    siblings hash alike, with nothing left over but the padding of the last byte. */
module ProofTrees {
  import opened MerkleTree
  import opened PartialMerkleTree

  /** A partial tree: a node where the descent stops, one with two children, or one whose right child is
      beyond the end of the block. */
  datatype Part = Stop(flag: bool, hash: Hash) | Branch(left: Part, right: Part) | Single(child: Part)

  predicate Fits(n: nat, h: nat, pos: nat, t: Part)
    decreases t
  {
    match t
    case Stop(flag, _) => h == 0 || !flag
    case Branch(left, right) =>
      && h > 0 && 2 * pos + 1 < Width(n, h - 1)
      && Fits(n, h - 1, 2 * pos, left) && Fits(n, h - 1, 2 * pos + 1, right)
    case Single(child) => h > 0 && 2 * pos + 1 >= Width(n, h - 1) && Fits(n, h - 1, 2 * pos, child)
  }

  /** The flags in the order of the descent, and the hashes where it stops. */
  function Flat(t: Part): Proof {
    match t
    case Stop(flag, hash) => Proof([flag], [hash])
    case Branch(left, right) => Join(Proof([true], []), Join(Flat(left), Flat(right)))
    case Single(child) => Join(Proof([true], []), Flat(child))
  }

  function Root(pair: PairHash, t: Part): Hash {
    match t
    case Stop(_, hash) => hash
    case Branch(left, right) => pair(Root(pair, left), Root(pair, right))
    case Single(child) => pair(Root(pair, child), Root(pair, child))
  }

  predicate NoTwins(pair: PairHash, t: Part) {
    match t
    case Stop(_, _) => true
    case Branch(left, right) => NoTwins(pair, left) && NoTwins(pair, right) && Root(pair, left) != Root(pair, right)
    case Single(child) => NoTwins(pair, child)
  }

  /** The ids of the flagged leaves, from left to right, and where they are. */
  function Ids(t: Part): seq<Hash> {
    match t
    case Stop(flag, hash) => if flag then [hash] else []
    case Branch(left, right) => Ids(left) + Ids(right)
    case Single(child) => Ids(child)
  }

  function Places(t: Part, pos: nat): seq<nat> {
    match t
    case Stop(flag, _) => if flag then [pos] else []
    case Branch(left, right) => Places(left, 2 * pos) + Places(right, 2 * pos + 1)
    case Single(child) => Places(child, 2 * pos)
  }

  /** The cursor after a tree has been read. */
  function Past(pair: PairHash, t: Part, pos: nat, c: Cursor): Cursor {
    Advance(c, Flat(t), Ids(t), Places(t, pos)).(bad := c.bad || !NoTwins(pair, t))
  }

  // ---------------------------------------------------------------- a tree is read as it was written

  lemma {:induction false} ReadsTree(pair: PairHash, n: nat, p: Proof, h: nat, pos: nat, c: Cursor, t: Part)
    requires Fits(n, h, pos, t) && Reads(p, c, Flat(t))
    ensures Extract(pair, n, p, h, pos, c) == Visit(Root(pair, t), Past(pair, t, pos, c))
    decreases t
  {
    match t
    case Stop(flag, hash) => ReadsStop(pair, n, p, h, pos, c, flag, hash);
    case Single(child) =>
      hide Extract, Width, Reads;
      var c1 := c.(bits := c.bits + 1);
      Descend(p, c, Flat(child));
      ReadsTree(pair, n, p, h - 1, 2 * pos, c1, child);
      InnerVisit(pair, n, p, h, pos, c);
    case Branch(left, right) => ReadsBranch(pair, n, p, h, pos, c, left, right);
  }

  lemma ReadsStop(pair: PairHash, n: nat, p: Proof, h: nat, pos: nat, c: Cursor, flag: bool, hash: Hash)
    requires (h == 0 || !flag) && Reads(p, c, Flat(Stop(flag, hash)))
    ensures Extract(pair, n, p, h, pos, c) == Visit(hash, Past(pair, Stop(flag, hash), pos, c))
  {
    hide Extract, Width;
    assert p.bits[c.bits..c.bits + 1][0] == flag && p.hashes[c.hashes..c.hashes + 1][0] == hash;
    OuterVisit(pair, n, p, h, pos, c);
  }

  lemma {:induction false} ReadsBranch(pair: PairHash, n: nat, p: Proof, h: nat, pos: nat, c: Cursor, left: Part,
                                       right: Part)
    requires Fits(n, h, pos, Branch(left, right)) && Reads(p, c, Flat(Branch(left, right)))
    ensures Extract(pair, n, p, h, pos, c) ==
      Visit(Root(pair, Branch(left, right)), Past(pair, Branch(left, right), pos, c))
    decreases Branch(left, right), 0
  {
    hide Extract, Width, Reads;
    var c1 := c.(bits := c.bits + 1);
    Descend(p, c, Join(Flat(left), Flat(right)));
    ReadsSplit(p, c1, Flat(left), Flat(right));
    ReadsTree(pair, n, p, h - 1, 2 * pos, c1, left);
    var c2 := Past(pair, left, 2 * pos, c1);
    ReadsAnyway(p, Advance(c1, Flat(left), Ids(left), Places(left, 2 * pos)), c2, Flat(right));
    ReadsTree(pair, n, p, h - 1, 2 * pos + 1, c2, right);
    InnerVisit(pair, n, p, h, pos, c);
    BothPast(pair, left, right, pos, c);
  }

  /** What is read does not depend on what was found before. */
  lemma ReadsAnyway(p: Proof, c: Cursor, d: Cursor, part: Proof)
    requires Reads(p, c, part) && d.bits == c.bits && d.hashes == c.hashes
    ensures Reads(p, d, part)
  {
  }

  lemma BothPast(pair: PairHash, left: Part, right: Part, pos: nat, c: Cursor)
    ensures var c2 := Past(pair, left, 2 * pos, c.(bits := c.bits + 1));
      var c3 := Past(pair, right, 2 * pos + 1, c2);
      c3.(bad := c3.bad || Root(pair, right) == Root(pair, left)) == Past(pair, Branch(left, right), pos, c)
  {
    BranchIs(pair, left, right, pos);
    hide Flat, Ids, Places, Root, NoTwins;
    AdvanceTwice(c, Flat(left), Flat(right), Ids(left), Places(left, 2 * pos), Ids(right), Places(right, 2 * pos + 1));
  }

  lemma BranchIs(pair: PairHash, left: Part, right: Part, pos: nat)
    ensures var t := Branch(left, right);
      && Flat(t) == Join(Proof([true], []), Join(Flat(left), Flat(right))) && Ids(t) == Ids(left) + Ids(right)
      && Places(t, pos) == Places(left, 2 * pos) + Places(right, 2 * pos + 1)
      && (NoTwins(pair, t) <==>
            NoTwins(pair, left) && NoTwins(pair, right) && Root(pair, left) != Root(pair, right))
  {
  }

  /** A flag that is set, and what is read below it. */
  lemma Descend(p: Proof, c: Cursor, below: Proof)
    requires Reads(p, c, Join(Proof([true], []), below))
    ensures c.bits < |p.bits| && p.bits[c.bits] && Reads(p, c.(bits := c.bits + 1), below)
  {
    StepIn(p, c, Join(Proof([true], []), below));
    ReadsSplit(p, c, Proof([true], []), below);
    assert Reads(p, Advance(c, Proof([true], []), [], []), below);
  }

  // ---------------------------------------------------------------- what is read without fault is a tree

  lemma {:induction false} TreeRead(pair: PairHash, n: nat, p: Proof, h: nat, pos: nat, c: Cursor) returns (t: Part)
    requires !Extract(pair, n, p, h, pos, c).c.bad
    ensures Fits(n, h, pos, t) && Reads(p, c, Flat(t))
    decreases h
  {
    hide Extract, Width, Reads;
    GoodVisitReads(pair, n, p, h, pos, c);
    if h == 0 || !p.bits[c.bits] {
      t := Stop(p.bits[c.bits], p.hashes[c.hashes]);
      OneRead(p, c);
    } else {
      InnerVisit(pair, n, p, h, pos, c);
      var c1 := c.(bits := c.bits + 1);
      FaultLasts(pair, n, p, h, pos, c);
      var left := TreeRead(pair, n, p, h - 1, 2 * pos, c1);
      ReadsTree(pair, n, p, h - 1, 2 * pos, c1, left);
      if 2 * pos + 1 < Width(n, h - 1) {
        var c2 := Past(pair, left, 2 * pos, c1);
        var right := TreeRead(pair, n, p, h - 1, 2 * pos + 1, c2);
        t := Branch(left, right);
        ReadsBoth(p, c1, c2, Flat(left), Flat(right));
        ReadsFrom(p, c, Join(Flat(left), Flat(right)));
      } else {
        t := Single(left);
        ReadsFrom(p, c, Flat(left));
      }
    }
  }

  lemma OneRead(p: Proof, c: Cursor)
    requires c.bits < |p.bits| && c.hashes < |p.hashes|
    ensures Reads(p, c, Proof([p.bits[c.bits]], [p.hashes[c.hashes]]))
  {
  }

  lemma ReadsFrom(p: Proof, c: Cursor, below: Proof)
    requires c.bits < |p.bits| && p.bits[c.bits] && Reads(p, c.(bits := c.bits + 1), below)
    ensures Reads(p, c, Join(Proof([true], []), below))
  {
    var n := 1 + |below.bits|;
    assert p.bits[c.bits..c.bits + n] == [p.bits[c.bits]] + p.bits[c.bits + 1..c.bits + n];
  }

  lemma ReadsBoth(p: Proof, c: Cursor, d: Cursor, a: Proof, b: Proof)
    requires Reads(p, c, a) && Reads(p, d, b) && d.bits == c.bits + |a.bits| && d.hashes == c.hashes + |a.hashes|
    ensures Reads(p, c, Join(a, b))
  {
    var i, j, k := c.bits, d.bits, d.bits + |b.bits|;
    assert p.bits[i..k] == p.bits[i..j] + p.bits[j..k];
    var l, m, q := c.hashes, d.hashes, d.hashes + |b.hashes|;
    assert p.hashes[l..q] == p.hashes[l..m] + p.hashes[m..q];
  }

  /** A fault below is a fault above. */
  lemma FaultLasts(pair: PairHash, n: nat, p: Proof, h: nat, pos: nat, c: Cursor)
    requires h > 0 && c.bits < |p.bits| && p.bits[c.bits] && !Extract(pair, n, p, h, pos, c).c.bad
    ensures !LeftVisit(pair, n, p, h, pos, c).c.bad
    ensures 2 * pos + 1 < Width(n, h - 1) ==> !RightVisit(pair, n, p, h, pos, c).c.bad
  {
    hide Width;
    InnerVisit(pair, n, p, h, pos, c);
  }

  // ---------------------------------------------------------------- exactly the proofs that verify

  /** The proof is this tree, and as many flags more as fill the last byte. */
  predicate Spells(n: nat, p: Proof, t: Part) {
    && Fits(n, Height(n), 0, t) && Flat(t).hashes == p.hashes && Flat(t).bits <= p.bits
    && (|Flat(t).bits| + 7) / 8 == (|p.bits| + 7) / 8
  }

  predicate InLimits(n: nat, p: Proof) { 0 < n && |p.hashes| <= n && |p.hashes| <= |p.bits| }

  lemma SpelledReads(n: nat, p: Proof, t: Part)
    requires Flat(t).hashes == p.hashes && Flat(t).bits <= p.bits
    ensures Reads(p, Cursor(0, 0, [], [], false), Flat(t))
  {
    assert p.hashes[0..|p.hashes|] == p.hashes;
  }

  /** A tree without twins is answered with its root and its flagged leaves; and a proof that is answered with
      a root is such a tree. */
  lemma VerifiesIff(pair: PairHash, n: nat, p: Proof, t: Part)
    ensures InLimits(n, p) && Spells(n, p, t) && NoTwins(pair, t) ==>
      ExtractMatches(pair, n, p, false, []) == Matches(Root(pair, t), Ids(t), Places(t, 0), false)
    ensures ExtractMatches(pair, n, p, false, []).root != NULL ==>
      InLimits(n, p) && exists u :: Spells(n, p, u) && NoTwins(pair, u)
  {
    hide Extract, Reads, Width, Height, Fits;
    var c := Cursor(0, 0, [], [], false);
    if InLimits(n, p) {
      if Spells(n, p, t) {
        SpelledReads(n, p, t);
        ReadsTree(pair, n, p, Height(n), 0, c, t);
      }
      if ExtractMatches(pair, n, p, false, []).root != NULL {
        var u := TreeRead(pair, n, p, Height(n), 0, c);
        ReadsTree(pair, n, p, Height(n), 0, c, u);
        ReadSpells(n, p, u);
        assert Spells(n, p, u) && NoTwins(pair, u);
      }
    }
  }

  lemma ReadSpells(n: nat, p: Proof, u: Part)
    requires Reads(p, Cursor(0, 0, [], [], false), Flat(u)) && |Flat(u).hashes| == |p.hashes|
    ensures Flat(u).hashes == p.hashes && Flat(u).bits <= p.bits
  {
    var f := Flat(u);
    assert p.hashes[0..|p.hashes|] == p.hashes && p.bits[0..|f.bits|] == p.bits[..|f.bits|];
  }

  // ---------------------------------------------------------------- the tree of a block

  /** Stops exactly at leaves and at nodes without a match below, with the hash the full tree has there. */
  ghost predicate Pruned(pair: PairHash, ids: seq<Hash>, match_: seq<bool>, h: nat, pos: nat, t: Part)
    requires |match_| == |ids| && First(h, pos) < |ids|
    decreases h
  {
    var some := AnyMatch(match_, First(h, pos), End(|ids|, h, pos));
    if h == 0 || !some then t == Stop(some, CalcHash(pair, ids, h, pos))
    else
      Children(|ids|, h, pos);
      if 2 * pos + 1 < Width(|ids|, h - 1) then
        t.Branch? && Pruned(pair, ids, match_, h - 1, 2 * pos, t.left)
        && Pruned(pair, ids, match_, h - 1, 2 * pos + 1, t.right)
      else t.Single? && Pruned(pair, ids, match_, h - 1, 2 * pos, t.child)
  }

  /** The proof built for a block is the full tree, pruned where nothing matches. */
  lemma {:induction false} BuildIsPruned(pair: PairHash, ids: seq<Hash>, match_: seq<bool>, h: nat, pos: nat)
    returns (t: Part)
    requires |match_| == |ids| && First(h, pos) < |ids|
    ensures Fits(|ids|, h, pos, t) && Pruned(pair, ids, match_, h, pos, t)
    ensures Flat(t) == Build(pair, ids, match_, h, pos)
    decreases h
  {
    hide Width, CalcHash, First, End, AnyMatch;
    var some := AnyMatch(match_, First(h, pos), End(|ids|, h, pos));
    if h == 0 || !some {
      t := Stop(some, CalcHash(pair, ids, h, pos));
    } else {
      Children(|ids|, h, pos);
      var left := BuildIsPruned(pair, ids, match_, h - 1, 2 * pos);
      if 2 * pos + 1 < Width(|ids|, h - 1) {
        var right := BuildIsPruned(pair, ids, match_, h - 1, 2 * pos + 1);
        t := Branch(left, right);
      } else {
        t := Single(left);
      }
    }
  }
}
