/** The cuckoo cache in place: a table, packed garbage flags, epoch flags and a counter. */
module CuckooCache {
  import opened Arithmetic
  import opened ByteFlags
  import opened CuckooModel
  import opened Options

  /** Garbage flags, eight to a byte. */
  class BitPackedFlags {
    const mem: array<bv8>

    /** Marks every entry as garbage. */
    constructor (size: nat)
      ensures fresh(mem) && 8 * mem.Length >= size
      ensures forall i :: 0 <= i < size ==> FlagAt(mem[..], i)
    {
      mem := new bv8[(size + 7) / 8](_ => 0xFF);
      new;
      forall i | 0 <= i < size ensures FlagAt(mem[..], i) {
        FullByte(i % 8);
      }
    }

    method Set(s: nat)
      requires s < 8 * mem.Length
      modifies mem
      ensures forall i :: 0 <= i < 8 * mem.Length ==> (FlagAt(mem[..], i) <==> i == s || old(FlagAt(mem[..], i)))
    {
      hide FlagAt, Mask;
      ghost var was := mem[..];
      mem[s / 8] := mem[s / 8] | Mask(s % 8);
      assert mem[..] == was[s / 8 := was[s / 8] | Mask(s % 8)];
      forall i | 0 <= i < 8 * mem.Length ensures FlagAt(mem[..], i) <==> i == s || FlagAt(was, i) {
        FlagSet(was, s, i);
      }
    }

    method Unset(s: nat)
      requires s < 8 * mem.Length
      modifies mem
      ensures forall i :: 0 <= i < 8 * mem.Length ==> (FlagAt(mem[..], i) <==> i != s && old(FlagAt(mem[..], i)))
    {
      hide FlagAt, Mask;
      ghost var was := mem[..];
      mem[s / 8] := mem[s / 8] & !Mask(s % 8);
      assert mem[..] == was[s / 8 := was[s / 8] & !Mask(s % 8)];
      forall i | 0 <= i < 8 * mem.Length ensures FlagAt(mem[..], i) <==> i != s && FlagAt(was, i) {
        FlagCleared(was, s, i);
      }
    }

    method IsSet(s: nat) returns (b: bool)
      requires s < 8 * mem.Length
      ensures b <==> FlagAt(mem[..], s)
    {
      b := Mask(s % 8) & mem[s / 8] != 0;
      AndCommutes(Mask(s % 8), mem[s / 8]);
    }
  }

  lemma AndCommutes(a: bv8, b: bv8)
    ensures a & b == b & a
  {
  }

  ghost function FlagsOf(bytes: seq<bv8>, size: nat): seq<bool>
    requires size <= 8 * |bytes|
  {
    seq(size, i requires 0 <= i < size => FlagAt(bytes, i))
  }

  class ElementCache {
    const hash: Hash
    const size: nat
    const table: array<Elem>
    const collectionFlags: BitPackedFlags
    const epochFlags: array<bool>
    var epochHeuristicCounter: nat
    const epochSize: nat
    const depthLimit: nat

    ghost predicate Valid() {
      && 2 <= size == table.Length == epochFlags.Length
      && size <= 8 * collectionFlags.mem.Length
      && (table as object) != (collectionFlags.mem as object)
      && (table as object) != (epochFlags as object)
      && (epochFlags as object) != (collectionFlags.mem as object)
    }

    ghost function State(): Cache
      requires Valid()
      reads this, table, collectionFlags.mem, epochFlags
    {
      Cache(table[..], FlagsOf(collectionFlags.mem[..], size), epochFlags[..], epochHeuristicCounter, epochSize)
    }

    /** A table of the given size, all of it garbage.  `depth` is the number of swaps to try, the
        logarithm of the size. */
    constructor (hash: Hash, newSize: nat, depth: nat)
      requires depth >= 1
      ensures Valid() && this.hash == hash && depthLimit == depth
      ensures State() == Setup(newSize)
      ensures fresh(table) && fresh(collectionFlags.mem) && fresh(epochFlags)
    {
      var size := Max(2, newSize);
      this.hash, this.size, depthLimit := hash, size, depth;
      table := new Elem[size](_ => DEFAULT);
      collectionFlags := new BitPackedFlags(size);
      epochFlags := new bool[size](_ => false);
      epochSize, epochHeuristicCounter := EpochSize(size), EpochSize(size);
      new;
      assert State().table == Setup(newSize).table;
      assert State().collected == Setup(newSize).collected;
      assert State().recent == Setup(newSize).recent;
    }

    method AllowErase(n: nat)
      requires Valid() && n < size
      modifies collectionFlags.mem
      ensures State() == old(State()).(collected := old(State()).collected[n := true])
    {
      hide FlagAt;
      collectionFlags.Set(n);
      assert State().collected == old(State()).collected[n := true];
      assert State().table == old(State()).table && State().recent == old(State()).recent;
    }

    method PleaseKeep(n: nat)
      requires Valid() && n < size
      modifies collectionFlags.mem
      ensures State() == old(State()).(collected := old(State()).collected[n := false])
    {
      hide FlagAt;
      collectionFlags.Unset(n);
      assert State().collected == old(State()).collected[n := false];
      assert State().table == old(State()).table && State().recent == old(State()).recent;
    }

    method ComputeHashes(e: Elem) returns (locs: seq<nat>)
      requires Valid()
      ensures locs == Locs(hash, size, e)
    {
      locs := seq(8, k requires 0 <= k < 8 => Loc(hash, size, k, e));
    }

    /** Counts the kept elements of the current epoch. */
    method CountLive() returns (count: nat)
      requires Valid()
      ensures count == Live(State().collected, State().recent)
    {
      hide FlagAt;
      ghost var c := State();
      count := 0;
      var i := 0;
      assert c.collected[0..] == c.collected && c.recent[0..] == c.recent;
      while i < size
        invariant 0 <= i <= size
        invariant count + Live(c.collected[i..], c.recent[i..]) == Live(c.collected, c.recent)
      {
        assert c.collected[i..][1..] == c.collected[i + 1..] && c.recent[i..][1..] == c.recent[i + 1..];
        var garbage := collectionFlags.IsSet(i);
        if epochFlags[i] && !garbage { count := count + 1; }
        i := i + 1;
      }
    }

    /** Ages every entry: the current epoch becomes the old one, the old one garbage. */
    method AgeEpochs()
      requires Valid()
      modifies collectionFlags.mem, epochFlags
      ensures State() == old(State()).(
        collected := seq(size, i requires 0 <= i < size => old(State()).collected[i] || !old(State()).recent[i]),
        recent := seq(size, _ => false))
    {
      hide FlagAt;
      ghost var c := State();
      var i := 0;
      while i < size
        invariant 0 <= i <= size && State() == c.(collected := State().collected, recent := State().recent)
        invariant forall j :: 0 <= j < size ==> State().collected[j] == (c.collected[j] || (j < i && !c.recent[j]))
        invariant forall j :: 0 <= j < size ==> State().recent[j] == (c.recent[j] && j >= i)
      {
        ghost var was := State();
        if epochFlags[i] {
          epochFlags[i] := false;
          assert State().collected == was.collected && State().recent == was.recent[i := false];
        } else {
          AllowErase(i);
        }
        i := i + 1;
      }
    }

    method EpochCheck()
      requires Valid()
      modifies this`epochHeuristicCounter, collectionFlags.mem, epochFlags
      ensures State() == CuckooModel.EpochCheck(old(State()))
    {
      if epochHeuristicCounter != 0 {
        epochHeuristicCounter := epochHeuristicCounter - 1;
        return;
      }
      var epochUnusedCount := CountLive();
      if epochUnusedCount >= epochSize {
        AgeEpochs();
        epochHeuristicCounter := epochSize;
      } else {
        epochHeuristicCounter := Max(1, Max(epochSize / 16, epochSize - epochUnusedCount));
      }
    }

    /** The first of the slots that holds `e`. */
    method Lookup(locs: seq<nat>, e: Elem) returns (held: Option<nat>)
      requires Valid() && forall k :: 0 <= k < |locs| ==> locs[k] < size
      ensures held == Holding(State().table, locs, e)
    {
      var k := 0;
      assert locs[0..] == locs;
      while k < |locs|
        invariant 0 <= k <= |locs|
        invariant Holding(State().table, locs[k..], e) == Holding(State().table, locs, e)
      {
        if table[locs[k]] == e { return Some(locs[k]); }
        assert locs[k..][1..] == locs[k + 1..];
        k := k + 1;
      }
      return None;
    }

    /** The first of the slots that is garbage. */
    method FindOpen(locs: seq<nat>) returns (free: Option<nat>)
      requires Valid() && forall k :: 0 <= k < |locs| ==> locs[k] < size
      ensures free == Open(State().collected, locs)
    {
      hide FlagAt;
      var k := 0;
      assert locs[0..] == locs;
      while k < |locs|
        invariant 0 <= k <= |locs|
        invariant Open(State().collected, locs[k..]) == Open(State().collected, locs)
      {
        var garbage := collectionFlags.IsSet(locs[k]);
        if garbage { return Some(locs[k]); }
        assert locs[k..][1..] == locs[k + 1..];
        k := k + 1;
      }
      return None;
    }

    /** Writes an element into a slot and keeps it. */
    method Place(loc: nat, e: Elem, epoch: bool)
      requires Valid() && loc < size
      modifies table, collectionFlags.mem, epochFlags
      ensures State() == Put(old(State()), loc, e, epoch)
    {
      hide FlagAt;
      ghost var c := State();
      table[loc] := e;
      PleaseKeep(loc);
      epochFlags[loc] := epoch;
      assert State().table == c.table[loc := e];
      assert State().recent == c.recent[loc := epoch];
      assert State().collected == c.collected[loc := false];
    }

    /** Puts an element in the place of a kept one. */
    method Swap(loc: nat, e: Elem, epoch: bool)
      requires Valid() && loc < size
      modifies table, epochFlags
      ensures State() == Swapped(old(State()), loc, e, epoch)
    {
      ghost var c := State();
      table[loc] := e;
      epochFlags[loc] := epoch;
      assert State().table == c.table[loc := e];
      assert State().recent == c.recent[loc := epoch];
      assert State().collected == c.collected;
    }

    method Insert(e: Elem) returns (ghost o: Outcome)
      requires Valid()
      modifies this`epochHeuristicCounter, table, collectionFlags.mem, epochFlags
      ensures o == CuckooModel.Insert(hash, depthLimit, old(State()), e) && State() == o.c
    {
      hide FlagAt, Locs, Holding, Open, NextLoc, CuckooModel.EpochCheck;
      EpochCheck();
      ghost var c1 := State();
      var locs := ComputeHashes(e);
      var held := Lookup(locs, e);
      if held.Some? {
        Place(held.value, e, true);
        o := Outcome(State(), None, None);
        return;
      }
      var inHand, last: Option<nat>, lastEpoch := e, None, true;
      var depth := 0;
      o := InsertLoop(hash, c1, e, None, true, depthLimit);
      while depth < depthLimit
        invariant 0 <= depth <= depthLimit && locs == Locs(hash, size, inHand)
        invariant InsertLoop(hash, State(), inHand, last, lastEpoch, depthLimit - depth) == o
      {
        var free := FindOpen(locs);
        if free.Some? {
          Place(free.value, inHand, lastEpoch);
          return;
        }
        var loc := NextLoc(locs, last);
        ghost var c := State();
        var evicted, epoch := table[loc], epochFlags[loc];
        Swap(loc, inHand, lastEpoch);
        inHand, last, lastEpoch := evicted, Some(loc), epoch;
        locs := ComputeHashes(inHand);
        depth := depth + 1;
      }
    }

    method Contains(e: Elem, erase: bool) returns (found: bool)
      requires Valid()
      modifies collectionFlags.mem
      ensures (found, State()) == Erase(hash, old(State()), e, erase)
    {
      hide FlagAt, Locs, Holding;
      var locs := ComputeHashes(e);
      var held := Lookup(locs, e);
      if held.Some? && erase { AllowErase(held.value); }
      found := held.Some?;
    }
  }
}
