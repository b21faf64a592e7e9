/** The rolling bloom filter: two-bit generation cells spread over pairs of 64-bit words. */
module RollingBloom {
  import opened Arithmetic

  // ---------------------------------------------------------------- one cell

  function Mask(bit: bv6): bv64 {
    var one: bv64 := 1;
    one << bit
  }

  predicate Bit(x: bv64, bit: bv6) { x & Mask(bit) != 0 }

  /** The generation written in a cell: the low bit in one word, the high bit in the other. */
  function Cell(p1: bv64, p2: bv64, bit: bv6): nat {
    (if Bit(p1, bit) then 1 else 0) + (if Bit(p2, bit) then 2 else 0)
  }

  const ONES: bv64 := 0xFFFFFFFFFFFFFFFF

  /** A word of copies of one bit of the generation number. */
  function Spread(b: bool): bv64 { if b then ONES else 0 }

  function And(x: bv64, y: bv64): bv64 { x & y }

  function Or(x: bv64, y: bv64): bv64 { x | y }

  function Xor(x: bv64, y: bv64): bv64 { x ^ y }

  function Not(x: bv64): bv64 { !x }

  lemma RawAnd(x: bv64, y: bv64, bit: bv6)
    ensures Bit(x & y, bit) <==> Bit(x, bit) && Bit(y, bit)
  {
  }

  lemma DeMorgan(x: bv64, y: bv64)
    ensures Or(x, y) == Not(And(Not(x), Not(y)))
  {
    assert x | y == !(!x & !y);
  }

  lemma RawXor(x: bv64, bit: bv6)
    ensures Bit(x ^ ONES, bit) <==> !Bit(x, bit)
    ensures x ^ 0 == x
  {
  }

  lemma RawNot(x: bv64, bit: bv6)
    ensures Bit(!x, bit) <==> !Bit(x, bit)
  {
  }

  lemma BitOfAnd(x: bv64, y: bv64, bit: bv6)
    ensures Bit(And(x, y), bit) <==> Bit(x, bit) && Bit(y, bit)
  {
    hide Bit;
    RawAnd(x, y, bit);
  }

  lemma BitOfOr(x: bv64, y: bv64, bit: bv6)
    ensures Bit(Or(x, y), bit) <==> Bit(x, bit) || Bit(y, bit)
  {
    hide Bit, Or, And, Not;
    DeMorgan(x, y);
    BitOfNot(x, bit);
    BitOfNot(y, bit);
    BitOfAnd(Not(x), Not(y), bit);
    BitOfNot(And(Not(x), Not(y)), bit);
  }

  lemma BitOfXor(x: bv64, b: bool, bit: bv6)
    ensures Bit(Xor(x, Spread(b)), bit) <==> Bit(x, bit) != b
  {
    hide Bit;
    RawXor(x, bit);
    if b { assert Xor(x, Spread(b)) == x ^ ONES; } else { assert Xor(x, Spread(b)) == x ^ 0; }
  }

  lemma BitOfNot(x: bv64, bit: bv6)
    ensures Bit(Not(x), bit) <==> !Bit(x, bit)
  {
    hide Bit;
    RawNot(x, bit);
  }

  lemma BitOfMask(a: bv6, b: bv6)
    ensures Bit(Mask(a), b) <==> a == b
  {
  }

  lemma BitOfZero(b: bv6)
    ensures !Bit(0, b)
  {
  }

  /** Which cells of a pair of words hold another generation. */
  function Others(p1: bv64, p2: bv64, low: bool, high: bool): bv64 {
    Or(Xor(p1, Spread(low)), Xor(p2, Spread(high)))
  }

  /** Wiping clears a cell exactly if it holds the generation. */
  lemma WipeCell(p1: bv64, p2: bv64, low: bool, high: bool, bit: bv6)
    ensures var mask := Others(p1, p2, low, high);
      Cell(And(p1, mask), And(p2, mask), bit) ==
      if Bit(p1, bit) == low && Bit(p2, bit) == high then 0 else Cell(p1, p2, bit)
  {
    hide Bit, Spread, And, Or, Xor;
    var mask := Others(p1, p2, low, high);
    BitOfXor(p1, low, bit);
    BitOfXor(p2, high, bit);
    BitOfOr(Xor(p1, Spread(low)), Xor(p2, Spread(high)), bit);
    BitOfAnd(p1, mask, bit);
    BitOfAnd(p2, mask, bit);
  }

  function MaskIf(b: bool, bit: bv6): bv64 { if b then Mask(bit) else 0 }

  /** A bit of a word set to a value, the others as they were. */
  function Stored(p: bv64, bit: bv6, b: bool): bv64 { Or(And(p, Not(Mask(bit))), MaskIf(b, bit)) }

  lemma StoreBit(p: bv64, bit: bv6, b: bool, other: bv6)
    ensures Bit(Stored(p, bit, b), other) <==> if other == bit then b else Bit(p, other)
  {
    hide Bit, Mask, And, Or, Not;
    BitOfMask(bit, other);
    BitOfNot(Mask(bit), other);
    BitOfZero(other);
    BitOfAnd(p, Not(Mask(bit)), other);
    BitOfOr(And(p, Not(Mask(bit))), MaskIf(b, bit), other);
  }

  // ---------------------------------------------------------------- generations

  type Key = nat

  /** A 32-bit hash: its upper 26 bits and its lower six. */
  datatype Hash32 = Hash32(high: nat, low: bv6)

  type Hash = (nat, Key) -> Hash32

  datatype Place = Place(word: nat, bit: bv6)

  function PlaceOf(hash: Hash, words: nat, n: nat, key: Key): (p: Place)
    requires words > 0
    ensures p.word < words && 2 * p.word <= hash(n, key).high % (2 * words) <= 2 * p.word + 1
    ensures p.bit == hash(n, key).low
  {
    Place(hash(n, key).high % (2 * words) / 2, hash(n, key).low)
  }

  /** The number of a generation counted from the first, in the cycle 1, 2, 3. */
  function Cycle(g: nat): (c: nat)
    requires g > 0
    ensures 1 <= c <= 3
  {
    (g - 1) % 3 + 1
  }

  /** What a cell last written in generation `stamp` holds in generation `now`: it is wiped when
      its number comes round again. */
  function Code(stamp: nat, now: nat): nat {
    if stamp == 0 || stamp + 3 <= now then 0 else Cycle(stamp)
  }

  lemma NextCycle(g: nat)
    requires g > 0
    ensures Cycle(g + 1) == if Cycle(g) == 3 then 1 else Cycle(g) + 1
  {
  }

  /** Advancing a generation wipes exactly the cells three generations old. */
  lemma WipeAges(stamp: nat, now: nat)
    requires now > 0 && stamp <= now
    ensures Code(stamp, now + 1) == if Code(stamp, now) == Cycle(now + 1) then 0 else Code(stamp, now)
  {
    if stamp > 0 && stamp + 3 > now { CycleApart(stamp, now); }
  }

  lemma CycleApart(stamp: nat, now: nat)
    requires 0 < stamp <= now < stamp + 3
    ensures Cycle(stamp) == Cycle(now + 1) <==> stamp + 3 == now + 1
  {
  }

  /** The generation in which the i-th key was inserted. */
  function GenerationOf(i: nat, perGeneration: nat): nat
    requires perGeneration > 0
  {
    Div(i, perGeneration) + 1
  }

  /** A key within reach was inserted at most two generations ago. */
  lemma RecentGeneration(i: nat, generation: nat, perGeneration: nat)
    requires perGeneration > 0 && i >= (generation - 3) * perGeneration
    ensures GenerationOf(i, perGeneration) + 2 >= generation
  {
    var q := i / perGeneration;
    assert i == q * perGeneration + i % perGeneration;
    if q + 4 <= generation {
      MultiplyGrows(q + 1, generation - 3, perGeneration);
      Distribute(q, 1, perGeneration);
    }
  }

  /** The next key belongs to the current generation while that has room. */
  lemma CurrentGeneration(generation: nat, count: nat, perGeneration: nat)
    requires generation > 0 && count < perGeneration
    ensures GenerationOf((generation - 1) * perGeneration + count, perGeneration) == generation
  {
    RemainderIs((generation - 1) * perGeneration + count, generation - 1, count, perGeneration);
  }

  // ---------------------------------------------------------------- the filter

  /** The generation numbers of all cells. */
  ghost predicate Coded(data: seq<bv64>, words: nat, stamps: Place -> nat, now: nat)
    requires |data| == 2 * words
  {
    forall p: Place :: p.word < words ==> CellOf(data, p) == Code(stamps(p), now)
  }

  function CellOf(data: seq<bv64>, p: Place): nat
    requires 2 * p.word + 1 < |data|
  {
    Cell(data[2 * p.word], data[2 * p.word + 1], p.bit)
  }

  /** A key's cells were last written no earlier than the key. */
  ghost predicate Stamped(hash: Hash, words: nat, nHashFuncs: nat, stamps: Place -> nat, key: Key, generation: nat)
    requires words > 0
  {
    forall n :: 0 <= n < nHashFuncs ==> stamps(PlaceOf(hash, words, n, key)) >= generation
  }

  /** The i-th key has the place among its cells and was inserted in the generation. */
  predicate Wrote(hash: Hash, words: nat, nHashFuncs: nat, history: seq<Key>, perGeneration: nat, p: Place,
                  generation: nat, i: nat, n: nat)
    requires words > 0 && perGeneration > 0
  {
    && i < |history| && n < nHashFuncs && PlaceOf(hash, words, n, history[i]) == p
    && GenerationOf(i, perGeneration) == generation
  }

  /** Some key inserted in the generation has the place among its cells. */
  ghost predicate Owed(hash: Hash, words: nat, nHashFuncs: nat, history: seq<Key>, perGeneration: nat, p: Place,
                       generation: nat)
    requires words > 0 && perGeneration > 0
  {
    exists i: nat, n: nat :: Wrote(hash, words, nHashFuncs, history, perGeneration, p, generation, i, n)
  }

  /** Every cell that was ever written was written for a key. */
  ghost predicate AllOwed(hash: Hash, words: nat, nHashFuncs: nat, history: seq<Key>, perGeneration: nat,
                          stamps: Place -> nat)
    requires words > 0 && perGeneration > 0
  {
    forall p: Place :: stamps(p) > 0 ==> Owed(hash, words, nHashFuncs, history, perGeneration, p, stamps(p))
  }

  /** Nothing but the cells of the key was written. */
  ghost predicate Marked(hash: Hash, words: nat, nHashFuncs: nat, key: Key, before: Place -> nat, stamps: Place -> nat,
                         now: nat)
    requires words > 0
  {
    forall p: Place :: stamps(p) != before(p) ==>
      stamps(p) == now && exists n: nat :: n < nHashFuncs && PlaceOf(hash, words, n, key) == p
  }

  lemma OwedOn(hash: Hash, words: nat, nHashFuncs: nat, history: seq<Key>, perGeneration: nat, before: Place -> nat,
               stamps: Place -> nat, key: Key)
    requires words > 0 && perGeneration > 0
    requires AllOwed(hash, words, nHashFuncs, history, perGeneration, before)
    requires Marked(hash, words, nHashFuncs, key, before, stamps, GenerationOf(|history|, perGeneration))
    ensures AllOwed(hash, words, nHashFuncs, history + [key], perGeneration, stamps)
  {
    hide GenerationOf;
    var all := history + [key];
    forall p: Place | stamps(p) > 0 ensures Owed(hash, words, nHashFuncs, all, perGeneration, p, stamps(p)) {
      if stamps(p) == before(p) {
        var i: nat, n: nat :| Wrote(hash, words, nHashFuncs, history, perGeneration, p, stamps(p), i, n);
        assert Wrote(hash, words, nHashFuncs, all, perGeneration, p, stamps(p), i, n);
      } else {
        var n: nat :| n < nHashFuncs && PlaceOf(hash, words, n, key) == p;
        assert Wrote(hash, words, nHashFuncs, all, perGeneration, p, stamps(p), |history|, n);
      }
    }
  }

  class RollingFilter {
    const hash: Hash
    const words: nat
    const nHashFuncs: nat
    const nEntriesPerGeneration: nat
    const data: array<bv64>
    var nEntriesThisGeneration: nat
    var nGeneration: nat

    /** Every key inserted since the last reset, the generation counted from one, and when each
        cell was last written. */
    ghost var history: seq<Key>
    ghost var now: nat
    ghost var stamps: Place -> nat

    ghost predicate Shaped() {
      words > 0 && data.Length == 2 * words && nEntriesPerGeneration > 0
    }

    ghost predicate Counted()
      reads this
      requires Shaped()
    {
      && now > 0 && nGeneration == Cycle(now) && nEntriesThisGeneration <= nEntriesPerGeneration
      && |history| == (now - 1) * nEntriesPerGeneration + nEntriesThisGeneration
    }

    ghost predicate Valid()
      reads this, data
    {
      && Shaped() && Counted()
      && (forall p: Place :: stamps(p) <= now)
      && Coded(data[..], words, stamps, now)
      && (forall i :: 0 <= i < |history| ==>
            Stamped(hash, words, nHashFuncs, stamps, history[i], GenerationOf(i, nEntriesPerGeneration)))
      && AllOwed(hash, words, nHashFuncs, history, nEntriesPerGeneration, stamps)
    }

    /** A filter for the last `nElements` keys; the number of words and of hash functions follow
        from the false-positive rate. */
    constructor (hash: Hash, nElements: nat, words: nat, nHashFuncs: nat)
      requires nElements > 0 && words > 0
      ensures Valid() && fresh(data) && history == []
      ensures this.hash == hash && this.nHashFuncs == nHashFuncs && this.words == words
      ensures nElements <= 2 * nEntriesPerGeneration <= nElements + 1
    {
      this.hash, this.words, this.nHashFuncs := hash, words, nHashFuncs;
      nEntriesPerGeneration := (nElements + 1) / 2;
      data := new bv64[2 * words](_ => 0);
      nEntriesThisGeneration, nGeneration := 0, 1;
      history, now, stamps := [], 1, _ => 0;
      new;
      EmptyCoded(data[..], words);
    }

    method Reset()
      requires Shaped()
      modifies this, data
      ensures Valid() && history == []
    {
      nEntriesThisGeneration, nGeneration := 0, 1;
      history, now, stamps := [], 1, _ => 0;
      var i := 0;
      while i < data.Length
        invariant 0 <= i <= data.Length && forall j :: 0 <= j < i ==> data[j] == 0
        modifies data
      {
        data[i] := 0;
        i := i + 1;
      }
      EmptyCoded(data[..], words);
    }

    /** Clears every cell that holds the generation. */
    method Wipe(generation: nat)
      requires Shaped() && 1 <= generation <= 3
      modifies data
      ensures forall p: Place :: p.word < words ==>
        CellOf(data[..], p) == if old(CellOf(data[..], p)) == generation then 0 else old(CellOf(data[..], p))
    {
      hide And, Others, CellOf;
      ghost var was := data[..];
      var low, high := generation % 2 == 1, generation / 2 == 1;
      var w := 0;
      while w < words
        invariant 0 <= w <= words
        invariant forall j :: 2 * w <= j < 2 * words ==> data[j] == was[j]
        invariant forall v :: 0 <= v < w ==> WipedPair(was, data[..], v, low, high)
      {
        ghost var before := data[..];
        var p1, p2 := data[2 * w], data[2 * w + 1];
        var mask := Others(p1, p2, low, high);
        data[2 * w] := And(p1, mask);
        data[2 * w + 1] := And(p2, mask);
        forall v | 0 <= v < w ensures WipedPair(was, data[..], v, low, high) {
          assert WipedPair(was, before, v, low, high);
        }
        w := w + 1;
      }
      WipedCells(was, data[..], words, generation, low, high);
    }

    /** Writes the generation in one cell. */
    method Mark(p: Place, generation: nat)
      requires Shaped() && p.word < words && 1 <= generation <= 3
      modifies data
      ensures forall q: Place :: q.word < words ==>
        CellOf(data[..], q) == if q == p then generation else old(CellOf(data[..], q))
    {
      ghost var was := data[..];
      data[2 * p.word] := Stored(data[2 * p.word], p.bit, generation % 2 == 1);
      data[2 * p.word + 1] := Stored(data[2 * p.word + 1], p.bit, generation / 2 == 1);
      forall q: Place | q.word < words
        ensures CellOf(data[..], q) == if q == p then generation else CellOf(was, q)
      {
        MarkCell(was, data[..], p, q, generation);
      }
    }

    /** Starts the next generation when the current one is full. */
    method Advance()
      requires Valid()
      modifies this`nEntriesThisGeneration, this`nGeneration, this`now, data
      ensures Valid() && nEntriesThisGeneration < nEntriesPerGeneration && history == old(history)
    {
      hide Stamped, Cell;
      if nEntriesThisGeneration == nEntriesPerGeneration {
        nEntriesThisGeneration := 0;
        NextCycle(now);
        nGeneration := nGeneration + 1;
        if nGeneration == 4 { nGeneration := 1; }
        Wipe(nGeneration);
        assert now * nEntriesPerGeneration == (now - 1) * nEntriesPerGeneration + nEntriesPerGeneration;
        forall p: Place | p.word < words ensures CellOf(data[..], p) == Code(stamps(p), now + 1) {
          WipeAges(stamps(p), now);
        }
        now := now + 1;
      }
    }

    method Insert(key: Key)
      requires Valid()
      modifies this, data
      ensures Valid() && history == old(history) + [key]
    {
      hide Cell, Code, Coded, AllOwed, Marked;
      Advance();
      ghost var before, n0 := stamps, |history|;
      CurrentGeneration(now, nEntriesThisGeneration, nEntriesPerGeneration);
      MarkAll(key);
      OwedOn(hash, words, nHashFuncs, history, nEntriesPerGeneration, before, stamps, key);
      nEntriesThisGeneration := nEntriesThisGeneration + 1;
      history := history + [key];
      forall i | 0 <= i < |history|
        ensures Stamped(hash, words, nHashFuncs, stamps, history[i], GenerationOf(i, nEntriesPerGeneration))
      {
        if i < n0 {
          StampsGrow(hash, words, nHashFuncs, before, stamps, history[i], GenerationOf(i, nEntriesPerGeneration));
        }
      }
    }

    /** Writes the current generation in every cell of a key. */
    method MarkAll(key: Key)
      requires Shaped() && now > 0 && nGeneration == Cycle(now) && Coded(data[..], words, stamps, now)
      requires forall p: Place :: stamps(p) <= now
      modifies this`stamps, data
      ensures Coded(data[..], words, stamps, now)
      ensures forall p: Place :: old(stamps)(p) <= stamps(p) <= now
      ensures Stamped(hash, words, nHashFuncs, stamps, key, now)
      ensures Marked(hash, words, nHashFuncs, key, old(stamps), stamps, now)
    {
      hide Cell, Code;
      ghost var before := stamps;
      var n := 0;
      while n < nHashFuncs
        invariant 0 <= n <= nHashFuncs
        invariant Coded(data[..], words, stamps, now)
        invariant forall p: Place :: before(p) <= stamps(p) <= now
        invariant forall m :: 0 <= m < n ==> stamps(PlaceOf(hash, words, m, key)) == now
        invariant Marked(hash, words, nHashFuncs, key, before, stamps, now)
      {
        var p := PlaceOf(hash, words, n, key);
        CodeNow(now);
        Mark(p, nGeneration);
        ghost var was, t := stamps, now;
        stamps := q => if q == p then t else was(q);
        n := n + 1;
      }
    }

    /** Whether all cells of a key are set.  They are for every key inserted in this generation
        or one of the two before it, and only if each was written for some key inserted since then. */
    method Contains(key: Key) returns (found: bool)
      requires Valid()
      ensures found <==> forall n :: 0 <= n < nHashFuncs ==> CellOf(data[..], PlaceOf(hash, words, n, key)) != 0
      ensures forall i :: 0 <= i < |history| && i >= |history| - 2 * nEntriesPerGeneration - nEntriesThisGeneration ==>
        (history[i] == key ==> found)
      ensures found ==> forall n :: 0 <= n < nHashFuncs ==> Recent(PlaceOf(hash, words, n, key))
    {
      hide Cell, Coded, Stamped, Hit, AllOwed, Recent;
      found := true;
      var n := 0;
      while n < nHashFuncs && found
        invariant 0 <= n <= nHashFuncs
        invariant found ==> forall m :: 0 <= m < n ==> CellOf(data[..], PlaceOf(hash, words, m, key)) != 0
        invariant !found ==> exists m :: 0 <= m < nHashFuncs && CellOf(data[..], PlaceOf(hash, words, m, key)) == 0
        decreases nHashFuncs - n, found
      {
        var p := PlaceOf(hash, words, n, key);
        EitherWord(data[2 * p.word], data[2 * p.word + 1], p.bit);
        if !Hit(data[2 * p.word], data[2 * p.word + 1], p.bit) {
          found := false;
        } else {
          n := n + 1;
        }
      }
      forall i | 0 <= i < |history| && i >= |history| - 2 * nEntriesPerGeneration - nEntriesThisGeneration
        && history[i] == key
        ensures found
      {
        RecentIsFound(i);
      }
      if found {
        forall m | 0 <= m < nHashFuncs ensures Recent(PlaceOf(hash, words, m, key)) {
          SetCellIsRecent(PlaceOf(hash, words, m, key));
        }
      }
    }

    /** One of the keys of the current generation and the two before it has the place among its cells. */
    ghost predicate Recent(p: Place)
      reads this
      requires Shaped() && now > 0
    {
      exists g: nat :: now - 2 <= g <= now && Owed(hash, words, nHashFuncs, history, nEntriesPerGeneration, p, g)
    }

    lemma SetCellIsRecent(p: Place)
      requires Valid() && p.word < words && CellOf(data[..], p) != 0
      ensures Recent(p)
    {
      hide Cell, Owed;
      assert CellOf(data[..], p) == Code(stamps(p), now);
      assert Owed(hash, words, nHashFuncs, history, nEntriesPerGeneration, p, stamps(p));
    }

    /** A key among the last two generations and the current one has all its cells set. */
    lemma RecentIsFound(i: nat)
      requires Valid() && |history| - 2 * nEntriesPerGeneration - nEntriesThisGeneration <= i < |history|
      ensures forall n :: 0 <= n < nHashFuncs ==> CellOf(data[..], PlaceOf(hash, words, n, history[i])) != 0
    {
      hide Cell;
      Distribute(now - 3, 2, nEntriesPerGeneration);
      RecentGeneration(i, now, nEntriesPerGeneration);
      forall n | 0 <= n < nHashFuncs ensures CellOf(data[..], PlaceOf(hash, words, n, history[i])) != 0 {
        var p := PlaceOf(hash, words, n, history[i]);
        assert stamps(p) >= GenerationOf(i, nEntriesPerGeneration);
        assert CellOf(data[..], p) == Code(stamps(p), now);
      }
    }
  }

  lemma EmptyCoded(data: seq<bv64>, words: nat)
    requires |data| == 2 * words && forall i :: 0 <= i < |data| ==> data[i] == 0
    ensures Coded(data, words, _ => 0, 1)
  {
    forall p: Place | p.word < words ensures CellOf(data, p) == 0 { BitOfZero(p.bit); }
  }

  /** One pair of words with the cells of a generation cleared. */
  predicate WipedPair(was: seq<bv64>, data: seq<bv64>, v: nat, low: bool, high: bool)
    requires 2 * v + 1 < |was| == |data|
  {
    var mask := Others(was[2 * v], was[2 * v + 1], low, high);
    data[2 * v] == And(was[2 * v], mask) && data[2 * v + 1] == And(was[2 * v + 1], mask)
  }

  lemma WipedCells(was: seq<bv64>, data: seq<bv64>, words: nat, generation: nat, low: bool, high: bool)
    requires |was| == |data| == 2 * words && 1 <= generation <= 3
    requires low == (generation % 2 == 1) && high == (generation / 2 == 1)
    requires forall v :: 0 <= v < words ==> WipedPair(was, data, v, low, high)
    ensures forall p: Place :: p.word < words ==>
      CellOf(data, p) == if CellOf(was, p) == generation then 0 else CellOf(was, p)
  {
    hide And, Others, Cell;
    forall p: Place | p.word < words
      ensures CellOf(data, p) == if CellOf(was, p) == generation then 0 else CellOf(was, p)
    {
      assert WipedPair(was, data, p.word, low, high);
      WipeGeneration(was[2 * p.word], was[2 * p.word + 1], generation, p.bit);
    }
  }

  lemma WipeGeneration(p1: bv64, p2: bv64, generation: nat, bit: bv6)
    requires 1 <= generation <= 3
    ensures var mask := Others(p1, p2, generation % 2 == 1, generation / 2 == 1);
      Cell(And(p1, mask), And(p2, mask), bit) == if Cell(p1, p2, bit) == generation then 0 else Cell(p1, p2, bit)
  {
    hide And, Others, Bit;
    WipeCell(p1, p2, generation % 2 == 1, generation / 2 == 1, bit);
  }

  lemma MarkCell(was: seq<bv64>, data: seq<bv64>, p: Place, q: Place, generation: nat)
    requires |data| == |was| && 2 * p.word + 1 < |was| && 2 * q.word + 1 < |was| && 1 <= generation <= 3
    requires data == was[2 * p.word := Stored(was[2 * p.word], p.bit, generation % 2 == 1)]
                        [2 * p.word + 1 := Stored(was[2 * p.word + 1], p.bit, generation / 2 == 1)]
    ensures CellOf(data, q) == if q == p then generation else CellOf(was, q)
  {
    hide Bit, Stored;
    StoreBit(was[2 * p.word], p.bit, generation % 2 == 1, q.bit);
    StoreBit(was[2 * p.word + 1], p.bit, generation / 2 == 1, q.bit);
  }

  lemma CodeNow(now: nat)
    requires now > 0
    ensures Code(now, now) == Cycle(now)
  {
  }

  lemma StampsGrow(hash: Hash, words: nat, nHashFuncs: nat, before: Place -> nat, stamps: Place -> nat, key: Key,
                   generation: nat)
    requires words > 0 && Stamped(hash, words, nHashFuncs, before, key, generation)
    requires forall p: Place :: before(p) <= stamps(p)
    ensures Stamped(hash, words, nHashFuncs, stamps, key, generation)
  {
  }

  /** Either word has the bit. */
  predicate Hit(p1: bv64, p2: bv64, bit: bv6) { Or(p1, p2) & Mask(bit) != 0 }

  lemma EitherWord(p1: bv64, p2: bv64, bit: bv6)
    ensures Hit(p1, p2, bit) <==> Cell(p1, p2, bit) != 0
  {
    hide Mask, Or;
    BitOfOr(p1, p2, bit);
  }
}
