/** The cuckoo cache as a value: eight possible slots per element, garbage flags that allow a slot
    to be overwritten, and epochs that decide when old entries become garbage. */
module CuckooModel {
  import opened Arithmetic
  import opened Options

  /** An element; zero stands for the default-constructed one that fills an unused table. */
  type Elem = nat

  const DEFAULT: Elem := 0

  /** Eight hash functions of 32 bits. */
  type Hash = (nat, Elem) -> nat

  datatype Cache = Cache(table: seq<Elem>, collected: seq<bool>, recent: seq<bool>, counter: nat, epochSize: nat)

  // ---------------------------------------------------------------- slots

  /** Scales the k-th hash of an element to the table size: the slot whose share of the 2^32 hashes it is in. */
  function Loc(hash: Hash, size: nat, k: nat, e: Elem): (loc: nat)
    requires size > 0
    ensures loc < size
    ensures loc * TWO_32 <= hash(k, e) % TWO_32 * size < (loc + 1) * TWO_32
  {
    ScaledInRange(hash(k, e) % TWO_32, size);
    hash(k, e) % TWO_32 * size / TWO_32
  }

  lemma ScaledInRange(h: nat, size: nat)
    requires h < TWO_32 && size > 0
    ensures h * size / TWO_32 < size
  {
    assert TWO_32 > 0;
    ScaledBelow(h, size, TWO_32);
  }

  lemma ScaledBelow(h: nat, size: nat, p: nat)
    requires h < p && size > 0
    ensures h * size / p < size
  {
    var q := h * size / p;
    assert h * size == q * p + h * size % p;
    assert h * size + (p - h) * size == p * size;
    assert (p - h) * size > 0;
    assert q >= size ==> q * p >= size * p;
  }

  function Locs(hash: Hash, size: nat, e: Elem): (locs: seq<nat>)
    requires size > 0
    ensures |locs| == 8 && forall k :: 0 <= k < 8 ==> locs[k] == Loc(hash, size, k, e) < size
  {
    seq(8, k requires 0 <= k < 8 => Loc(hash, size, k, e))
  }

  /** The first of the given slots that holds `e`. */
  function Holding(table: seq<Elem>, locs: seq<nat>, e: Elem): (r: Option<nat>)
    requires forall k :: 0 <= k < |locs| ==> locs[k] < |table|
    ensures r.Some? ==> r.value in locs && table[r.value] == e
    ensures r.None? ==> forall k :: 0 <= k < |locs| ==> table[locs[k]] != e
  {
    if locs == [] then None
    else if table[locs[0]] == e then Some(locs[0])
    else Holding(table, locs[1..], e)
  }

  /** The first of the slots that may be overwritten. */
  predicate First(collected: seq<bool>, locs: seq<nat>, loc: nat)
    requires forall k :: 0 <= k < |locs| ==> locs[k] < |collected|
  {
    exists k :: 0 <= k < |locs| && locs[k] == loc && collected[loc] && forall j :: 0 <= j < k ==> !collected[locs[j]]
  }

  /** The first of the given slots that may be overwritten. */
  function Open(collected: seq<bool>, locs: seq<nat>): (r: Option<nat>)
    requires forall k :: 0 <= k < |locs| ==> locs[k] < |collected|
    ensures r.Some? ==> r.value in locs && collected[r.value] && First(collected, locs, r.value)
    ensures r.None? ==> forall k :: 0 <= k < |locs| ==> !collected[locs[k]]
  {
    if locs == [] then None
    else if collected[locs[0]] then Some(locs[0])
    else Open(collected, locs[1..])
  }

  function Find(locs: seq<nat>, loc: Option<nat>): (k: nat)
    ensures k <= |locs| && (k < |locs| ==> Some(locs[k]) == loc)
    ensures forall j :: 0 <= j < k ==> Some(locs[j]) != loc
  {
    if locs == [] || Some(locs[0]) == loc then 0 else 1 + Find(locs[1..], loc)
  }

  /** The slot to swap with: the one after the slot last used, the second if there is none. */
  function NextLoc(locs: seq<nat>, last: Option<nat>): (loc: nat)
    requires |locs| == 8
    ensures loc in locs
  {
    locs[(1 + Find(locs, last)) % 8]
  }

  // ---------------------------------------------------------------- operations

  function Put(c: Cache, loc: nat, e: Elem, epoch: bool): Cache
    requires loc < |c.table| == |c.collected| == |c.recent|
  {
    c.(table := c.table[loc := e], collected := c.collected[loc := false], recent := c.recent[loc := epoch])
  }

  /** The kept elements of the current epoch. */
  function Live(collected: seq<bool>, recent: seq<bool>): nat
    requires |collected| == |recent|
  {
    if recent == [] then 0
    else Live(collected[1..], recent[1..]) + (if recent[0] && !collected[0] then 1 else 0)
  }

  function EpochCheck(c: Cache): Cache
    requires |c.table| == |c.collected| == |c.recent|
  {
    if c.counter != 0 then c.(counter := c.counter - 1)
    else if Live(c.collected, c.recent) >= c.epochSize then
      Cache(c.table,
            seq(|c.table|, i requires 0 <= i < |c.table| => c.collected[i] || !c.recent[i]),
            seq(|c.table|, _ => false), c.epochSize, c.epochSize)
    else
      c.(counter := Max(1, Max(c.epochSize / 16, c.epochSize - Live(c.collected, c.recent))))
  }

  /** What became of an insertion: at most one element is lost, overwritten as garbage or dropped
      for want of room. */
  datatype Outcome = Outcome(c: Cache, overwritten: Option<Elem>, dropped: Option<Elem>)

  function InsertLoop(hash: Hash, c: Cache, e: Elem, last: Option<nat>, epoch: bool, depth: nat): (o: Outcome)
    requires 0 < |c.table| == |c.collected| == |c.recent|
    ensures |o.c.table| == |o.c.collected| == |o.c.recent| == |c.table|
    decreases depth
  {
    if depth == 0 then Outcome(c, None, Some(e))
    else
      var locs := Locs(hash, |c.table|, e);
      var free := Open(c.collected, locs);
      if free.Some? then Outcome(Put(c, free.value, e, epoch), Some(c.table[free.value]), None)
      else
        var loc := NextLoc(locs, last);
        var c' := c.(table := c.table[loc := e], recent := c.recent[loc := epoch]);
        InsertLoop(hash, c', c.table[loc], Some(loc), c.recent[loc], depth - 1)
  }

  function Insert(hash: Hash, depthLimit: nat, c: Cache, e: Elem): (o: Outcome)
    requires 0 < |c.table| == |c.collected| == |c.recent|
    ensures |o.c.table| == |o.c.collected| == |o.c.recent| == |c.table|
  {
    var c1 := EpochCheck(c);
    var held := Holding(c1.table, Locs(hash, |c1.table|, e), e);
    if held.Some? then Outcome(Put(c1, held.value, e, true), None, None)
    else InsertLoop(hash, c1, e, None, true, depthLimit)
  }

  /** Whether an element is found, with its slot marked as garbage if asked. */
  function Erase(hash: Hash, c: Cache, e: Elem, erase: bool): (r: (bool, Cache))
    requires 0 < |c.table| == |c.collected| == |c.recent|
    ensures |r.1.table| == |r.1.collected| == |r.1.recent| == |c.table|
  {
    var held := Holding(c.table, Locs(hash, |c.table|, e), e);
    if held.Some? then (true, if erase then c.(collected := c.collected[held.value := true]) else c)
    else (false, c)
  }

  /** Forty-five percent of the size, in unsigned 32-bit arithmetic, and at least one. */
  function EpochSize(size: nat): nat { Max(1, 45 * size % TWO_32 / 100) }

  function Setup(newSize: nat): Cache {
    var size := Max(2, newSize);
    Cache(seq(size, _ => DEFAULT), seq(size, _ => true), seq(size, _ => false), EpochSize(size), EpochSize(size))
  }

  // ---------------------------------------------------------------- what every run keeps

  predicate Shaped(c: Cache) { 0 < |c.table| == |c.collected| == |c.recent| }

  /** An element sits in one of its own slots. */
  predicate Homed(hash: Hash, c: Cache)
    requires Shaped(c)
  {
    forall i :: 0 <= i < |c.table| && (c.table[i] != DEFAULT || !c.collected[i]) ==>
      i in Locs(hash, |c.table|, c.table[i])
  }

  predicate Unique(table: seq<Elem>) {
    forall i, j :: 0 <= i < j < |table| && table[i] == table[j] ==> table[i] == DEFAULT
  }

  predicate Placed(hash: Hash, c: Cache) { Shaped(c) && Homed(hash, c) && Unique(c.table) }

  /** The most kept elements of the current epoch there can ever be. */
  function EpochBound(epochSize: nat): nat { epochSize + Max(1, epochSize / 16) }

  predicate Inv(hash: Hash, c: Cache) {
    && Placed(hash, c) && c.epochSize > 0
    && Live(c.collected, c.recent) + c.counter <= EpochBound(c.epochSize)
  }

  /** Membership as a caller sees it is membership in the table. */
  lemma ContainsIffInTable(hash: Hash, c: Cache, e: Elem, erase: bool)
    requires Placed(hash, c) && e != DEFAULT
    ensures Erase(hash, c, e, erase).0 <==> e in c.table
  {
    var locs := Locs(hash, |c.table|, e);
    if e in c.table {
      var i :| 0 <= i < |c.table| && c.table[i] == e;
      var k :| 0 <= k < |locs| && locs[k] == i;
      assert c.table[locs[k]] == e;
    }
  }

  predicate Kept(c: Cache, e: Elem)
    requires Shaped(c)
  {
    exists i :: 0 <= i < |c.table| && c.table[i] == e && !c.collected[i]
  }

  // ---------------------------------------------------------------- the swapping loop

  function Swapped(c: Cache, loc: nat, e: Elem, epoch: bool): Cache
    requires Shaped(c) && loc < |c.table|
  {
    c.(table := c.table[loc := e], recent := c.recent[loc := epoch])
  }

  /** In hand: an element not in the table, unless it is the default one. */
  predicate InHand(c: Cache, e: Elem) { e == DEFAULT || e !in c.table }

  lemma PutPlaces(hash: Hash, c: Cache, loc: nat, e: Elem, epoch: bool)
    requires Placed(hash, c) && InHand(c, e) && loc in Locs(hash, |c.table|, e)
    ensures loc < |c.table| && Placed(hash, Put(c, loc, e, epoch))
  {
    hide Locs;
    assert loc < |c.table|;
    var table := c.table[loc := e];
    forall i, j | 0 <= i < j < |table| && table[i] == table[j] ensures table[i] == DEFAULT {
      if i == loc { assert c.table[j] in c.table; } else if j == loc { assert c.table[i] in c.table; }
    }
  }

  lemma SwapPlaces(hash: Hash, c: Cache, loc: nat, e: Elem, epoch: bool)
    requires Placed(hash, c) && InHand(c, e) && loc in Locs(hash, |c.table|, e) && loc < |c.table| && !c.collected[loc]
    ensures Placed(hash, Swapped(c, loc, e, epoch))
    ensures InHand(Swapped(c, loc, e, epoch), c.table[loc])
    ensures loc in Locs(hash, |c.table|, c.table[loc])
  {
    hide Locs;
    PutPlaces(hash, c, loc, e, epoch);
    assert c.collected[loc := false] == c.collected;
    var x := c.table[loc];
    if x != DEFAULT {
      assert x != e;
      TableAfter(c.table, loc, e, x);
    }
  }

  /** Swaps and the final placement only move elements: every element of the table and the one in
      hand is in the table afterwards, but for the one lost. */
  ghost predicate Conserves(c: Cache, e: Elem, o: Outcome) {
    forall x :: x != DEFAULT ==>
      (x in o.c.table <==> (x in c.table || x == e) && o.overwritten != Some(x) && o.dropped != Some(x))
  }

  lemma PutConserves(hash: Hash, c: Cache, loc: nat, e: Elem, epoch: bool)
    requires Placed(hash, c) && InHand(c, e) && loc < |c.table|
    ensures Conserves(c, e, Outcome(Put(c, loc, e, epoch), Some(c.table[loc]), None))
  {
    hide Homed;
    var table := c.table[loc := e];
    forall x | x != DEFAULT
      ensures x in table <==> (x in c.table || x == e) && c.table[loc] != x
    {
      TableAfter(c.table, loc, e, x);
    }
  }

  lemma TableAfter(table: seq<Elem>, loc: nat, e: Elem, x: Elem)
    requires Unique(table) && loc < |table| && (e == DEFAULT || e !in table) && x != DEFAULT
    ensures x in table[loc := e] <==> (x in table || x == e) && table[loc] != x
  {
    var table' := table[loc := e];
    assert table'[loc] == e;
    if x in table && table[loc] != x {
      var i :| 0 <= i < |table| && table[i] == x;
      assert table'[i] == x;
    }
    if x in table' {
      var i :| 0 <= i < |table'| && table'[i] == x;
      if i != loc { assert table[i] == x; }
    }
  }

  /** Inserting an element that is not there: it stays placed, and at most one element is lost. */
  lemma {:induction false} LoopConserves(hash: Hash, c: Cache, e: Elem, last: Option<nat>, epoch: bool, depth: nat)
    requires Placed(hash, c) && InHand(c, e)
    ensures var o := InsertLoop(hash, c, e, last, epoch, depth);
      Placed(hash, o.c) && Conserves(c, e, o) && |o.c.table| == |c.table|
    ensures var o := InsertLoop(hash, c, e, last, epoch, depth);
      (o.overwritten.None? || o.dropped.None?) && o.c.counter == c.counter && o.c.epochSize == c.epochSize
    decreases depth
  {
    hide Locs, Open, NextLoc, Homed, Unique, Conserves;
    if depth == 0 {
      DropConserves(c, e);
    } else {
      var locs := Locs(hash, |c.table|, e);
      var free := Open(c.collected, locs);
      if free.Some? {
        PutPlaces(hash, c, free.value, e, epoch);
        PutConserves(hash, c, free.value, e, epoch);
      } else {
        var loc := NextLoc(locs, last);
        SwapPlaces(hash, c, loc, e, epoch);
        LoopConserves(hash, Swapped(c, loc, e, epoch), c.table[loc], Some(loc), c.recent[loc], depth - 1);
        SwapConserves(hash, c, loc, e, epoch, InsertLoop(hash, c, e, last, epoch, depth));
      }
    }
  }

  lemma DropConserves(c: Cache, e: Elem)
    requires InHand(c, e)
    ensures Conserves(c, e, Outcome(c, None, Some(e)))
  {
  }

  lemma SwapConserves(hash: Hash, c: Cache, loc: nat, e: Elem, epoch: bool, o: Outcome)
    requires Placed(hash, c) && InHand(c, e) && loc < |c.table|
    requires Conserves(Swapped(c, loc, e, epoch), c.table[loc], o)
    ensures Conserves(c, e, o)
  {
    hide Homed, Unique;
    forall x | x != DEFAULT
      ensures x in o.c.table <==> (x in c.table || x == e) && o.overwritten != Some(x) && o.dropped != Some(x)
    {
      TableAfter(c.table, loc, e, x);
      assert c.table[loc] in c.table;
    }
  }

  // ---------------------------------------------------------------- kept elements

  /** An element kept before is kept afterwards unless it is dropped, and nothing else is but the
      new one. */
  ghost predicate KeepsAllBut(c: Cache, e: Elem, o: Outcome)
    requires Shaped(c) && Shaped(o.c)
  {
    forall x :: x != DEFAULT ==> (Kept(o.c, x) <==> (Kept(c, x) || x == e) && o.dropped != Some(x))
  }

  lemma KeptAfterPut(c: Cache, loc: nat, e: Elem, epoch: bool, x: Elem)
    requires Shaped(c) && Unique(c.table) && loc < |c.table| && InHand(c, e) && x != DEFAULT
    ensures Kept(Put(c, loc, e, epoch), x) <==> (Kept(c, x) && (c.table[loc] != x || c.collected[loc])) || x == e
  {
    var c' := Put(c, loc, e, epoch);
    assert c'.table[loc] == e && !c'.collected[loc];
    if Kept(c, x) && (c.table[loc] != x || c.collected[loc]) {
      var i :| 0 <= i < |c.table| && c.table[i] == x && !c.collected[i];
      assert c'.table[i] == x && !c'.collected[i];
    }
    if Kept(c', x) && x != e {
      var i :| 0 <= i < |c'.table| && c'.table[i] == x && !c'.collected[i];
      assert c.table[i] == x && !c.collected[i];
    }
  }

  lemma PutKeeps(c: Cache, loc: nat, e: Elem, epoch: bool)
    requires Shaped(c) && Unique(c.table) && loc < |c.table| && InHand(c, e) && c.collected[loc]
    ensures KeepsAllBut(c, e, Outcome(Put(c, loc, e, epoch), Some(c.table[loc]), None))
  {
    hide Unique, InHand, Kept;
    forall x | x != DEFAULT ensures Kept(Put(c, loc, e, epoch), x) <==> Kept(c, x) || x == e {
      KeptAfterPut(c, loc, e, epoch, x);
    }
  }

  lemma SwapKeeps(c: Cache, loc: nat, e: Elem, epoch: bool, o: Outcome)
    requires Shaped(c) && Unique(c.table) && loc < |c.table| && InHand(c, e) && !c.collected[loc] && Shaped(o.c)
    requires KeepsAllBut(Swapped(c, loc, e, epoch), c.table[loc], o)
    ensures KeepsAllBut(c, e, o)
  {
    hide Unique, InHand;
    assert c.collected[loc := false] == c.collected;
    assert Put(c, loc, e, epoch) == Swapped(c, loc, e, epoch);
    assert Kept(c, c.table[loc]);
    forall x | x != DEFAULT
      ensures Kept(o.c, x) <==> (Kept(c, x) || x == e) && o.dropped != Some(x)
    {
      KeptAfterPut(c, loc, e, epoch, x);
    }
  }

  lemma DropKeeps(c: Cache, e: Elem)
    requires Shaped(c) && InHand(c, e)
    ensures KeepsAllBut(c, e, Outcome(c, None, Some(e)))
  {
    forall x | x != DEFAULT && Kept(c, x) ensures x in c.table { }
  }

  lemma {:induction false} LoopKeeps(hash: Hash, c: Cache, e: Elem, last: Option<nat>, epoch: bool, depth: nat)
    requires Placed(hash, c) && InHand(c, e)
    ensures Shaped(InsertLoop(hash, c, e, last, epoch, depth).c)
    ensures KeepsAllBut(c, e, InsertLoop(hash, c, e, last, epoch, depth))
    decreases depth
  {
    hide Locs, Open, NextLoc, Homed, Unique, KeepsAllBut;
    if depth == 0 {
      DropKeeps(c, e);
    } else {
      var locs := Locs(hash, |c.table|, e);
      var free := Open(c.collected, locs);
      if free.Some? {
        PutKeeps(c, free.value, e, epoch);
      } else {
        var loc := NextLoc(locs, last);
        SwapPlaces(hash, c, loc, e, epoch);
        LoopKeeps(hash, Swapped(c, loc, e, epoch), c.table[loc], Some(loc), c.recent[loc], depth - 1);
        SwapKeeps(c, loc, e, epoch, InsertLoop(hash, c, e, last, epoch, depth));
      }
    }
  }

  // ---------------------------------------------------------------- epochs

  lemma {:induction false} LiveUpdate(collected: seq<bool>, recent: seq<bool>, i: nat, c: bool, r: bool)
    requires i < |collected| == |recent|
    ensures Live(collected[i := c], recent[i := r]) ==
      Live(collected, recent) - (if recent[i] && !collected[i] then 1 else 0) + (if r && !c then 1 else 0)
  {
    var collected', recent' := collected[i := c], recent[i := r];
    if i == 0 {
      assert collected'[1..] == collected[1..] && recent'[1..] == recent[1..];
    } else {
      LiveUpdate(collected[1..], recent[1..], i - 1, c, r);
      assert collected'[1..] == collected[1..][i - 1 := c] && recent'[1..] == recent[1..][i - 1 := r];
    }
  }

  lemma {:induction false} NoneLive(collected: seq<bool>, recent: seq<bool>)
    requires |collected| == |recent| && forall i :: 0 <= i < |recent| ==> !recent[i]
    ensures Live(collected, recent) == 0
  {
    if recent != [] { NoneLive(collected[1..], recent[1..]); }
  }

  /** The loop carries epoch flags along with the elements, so the count grows by at most the one
      brought in. */
  lemma {:induction false} LoopLive(hash: Hash, c: Cache, e: Elem, last: Option<nat>, epoch: bool, depth: nat)
    requires Shaped(c)
    ensures Shaped(InsertLoop(hash, c, e, last, epoch, depth).c)
    ensures var c' := InsertLoop(hash, c, e, last, epoch, depth).c;
      Live(c'.collected, c'.recent) <= Live(c.collected, c.recent) + (if epoch then 1 else 0)
    decreases depth
  {
    hide Locs, Open, NextLoc;
    if depth > 0 {
      var locs := Locs(hash, |c.table|, e);
      var free := Open(c.collected, locs);
      if free.Some? {
        LiveUpdate(c.collected, c.recent, free.value, false, epoch);
      } else {
        var loc := NextLoc(locs, last);
        LoopLive(hash, Swapped(c, loc, e, epoch), c.table[loc], Some(loc), c.recent[loc], depth - 1);
        LiveUpdate(c.collected, c.recent, loc, false, epoch);
        assert c.collected[loc := false] == c.collected;
      }
    }
  }

  /** Ageing an epoch makes garbage of kept elements of the epoch before, and of nothing else. */
  lemma EpochCheckKeeps(hash: Hash, c: Cache)
    requires Inv(hash, c)
    ensures var c1 := EpochCheck(c);
      && Placed(hash, c1) && c1.table == c.table && c1.epochSize == c.epochSize
      && Live(c1.collected, c1.recent) + 1 + c1.counter <= EpochBound(c.epochSize)
      && (forall i :: 0 <= i < |c.table| && c.collected[i] ==> c1.collected[i])
      && (forall i :: 0 <= i < |c.table| && c.recent[i] && !c.collected[i] ==> !c1.collected[i])
      && (c.counter > 0 || Live(c.collected, c.recent) < c.epochSize ==> c1.collected == c.collected)
  {
    hide Locs, Unique;
    var c1 := EpochCheck(c);
    if c.counter == 0 && Live(c.collected, c.recent) >= c.epochSize {
      NoneLive(c1.collected, c1.recent);
    }
  }

  /** Inserting: afterwards the table holds what it held and the new element, but for at most one
      element lost; a kept element is lost only if dropped for want of an open slot, and then only
      that one. */
  lemma InsertLosesAtMostOne(hash: Hash, depthLimit: nat, c: Cache, e: Elem)
    requires Inv(hash, c)
    ensures var o := Insert(hash, depthLimit, c, e);
      && Inv(hash, o.c) && |o.c.table| == |c.table| && Conserves(c, e, o)
      && (o.overwritten.None? || o.dropped.None?)
      && KeepsAllBut(EpochCheck(c), e, o)
  {
    hide Locs, Homed, Unique, Conserves, KeepsAllBut, Live, EpochBound;
    var c1 := EpochCheck(c);
    EpochCheckKeeps(hash, c);
    var locs := Locs(hash, |c1.table|, e);
    var held := Holding(c1.table, locs, e);
    if held.Some? {
      LiveUpdate(c1.collected, c1.recent, held.value, false, true);
      TouchPlaces(hash, c1, held.value, e);
      SameTable(c, c1, e, Insert(hash, depthLimit, c, e));
    } else {
      NotHeld(hash, c1, e);
      LoopConserves(hash, c1, e, None, true, depthLimit);
      LoopKeeps(hash, c1, e, None, true, depthLimit);
      LoopLive(hash, c1, e, None, true, depthLimit);
      SameTable(c, c1, e, Insert(hash, depthLimit, c, e));
    }
  }

  lemma NotHeld(hash: Hash, c: Cache, e: Elem)
    requires Placed(hash, c) && Holding(c.table, Locs(hash, |c.table|, e), e).None?
    ensures InHand(c, e)
  {
    if e != DEFAULT { ContainsIffInTable(hash, c, e, false); }
  }

  lemma SameTable(c: Cache, c1: Cache, e: Elem, o: Outcome)
    requires c1.table == c.table && Conserves(c1, e, o)
    ensures Conserves(c, e, o)
  {
  }

  /** Finding an element in place keeps it and moves it to the current epoch. */
  lemma TouchPlaces(hash: Hash, c: Cache, loc: nat, e: Elem)
    requires Placed(hash, c) && loc in Locs(hash, |c.table|, e) && loc < |c.table| && c.table[loc] == e
    ensures Placed(hash, Put(c, loc, e, true))
    ensures Conserves(c, e, Outcome(Put(c, loc, e, true), None, None))
    ensures KeepsAllBut(c, e, Outcome(Put(c, loc, e, true), None, None))
  {
    hide Locs;
    var c' := Put(c, loc, e, true);
    assert c'.table == c.table;
    assert Kept(c', e) by { assert c'.table[loc] == e && !c'.collected[loc]; }
    forall x | x != DEFAULT ensures Kept(c', x) <==> Kept(c, x) || x == e {
      if Kept(c, x) {
        var i :| 0 <= i < |c.table| && c.table[i] == x && !c.collected[i];
        assert c'.table[i] == x && !c'.collected[i];
      }
      if Kept(c', x) && x != e {
        var i :| 0 <= i < |c'.table| && c'.table[i] == x && !c'.collected[i];
        assert i != loc;
      }
    }
  }

  lemma EraseKeeps(hash: Hash, c: Cache, e: Elem, erase: bool)
    requires Inv(hash, c)
    ensures Inv(hash, Erase(hash, c, e, erase).1)
    ensures Erase(hash, c, e, erase).1.table == c.table
    ensures forall x :: x != DEFAULT ==>
      (Kept(Erase(hash, c, e, erase).1, x) <==> Kept(c, x) && !(erase && x == e))
  {
    hide Locs;
    var c' := Erase(hash, c, e, erase).1;
    var held := Holding(c.table, Locs(hash, |c.table|, e), e);
    NotKeptUnlessHeld(hash, c, e);
    if held.Some? && erase {
      LiveUpdate(c.collected, c.recent, held.value, true, c.recent[held.value]);
      assert c.recent[held.value := c.recent[held.value]] == c.recent;
      forall x | x != DEFAULT ensures Kept(c', x) <==> Kept(c, x) && x != e {
        KeptAfterErase(c, held.value, x);
      }
    }
  }

  lemma NotKeptUnlessHeld(hash: Hash, c: Cache, e: Elem)
    requires Placed(hash, c)
    ensures e != DEFAULT && Holding(c.table, Locs(hash, |c.table|, e), e).None? ==> !Kept(c, e)
  {
    if e != DEFAULT {
      ContainsIffInTable(hash, c, e, false);
    }
  }

  lemma KeptAfterErase(c: Cache, loc: nat, x: Elem)
    requires Shaped(c) && Unique(c.table) && loc < |c.table| && x != DEFAULT
    ensures Kept(c.(collected := c.collected[loc := true]), x) <==> Kept(c, x) && x != c.table[loc]
  {
    var c' := c.(collected := c.collected[loc := true]);
    if Kept(c, x) && x != c.table[loc] {
      var i :| 0 <= i < |c.table| && c.table[i] == x && !c.collected[i];
      assert c'.table[i] == x && !c'.collected[i];
    }
    if Kept(c', x) {
      var i :| 0 <= i < |c'.table| && c'.table[i] == x && !c'.collected[i];
      assert c.table[i] == x && !c.collected[i];
    }
  }

  // ---------------------------------------------------------------- runs

  datatype Op = Add(e: Elem) | Check(e: Elem, erase: bool)

  function Apply(hash: Hash, depthLimit: nat, c: Cache, op: Op): Cache
    requires Shaped(c)
  {
    match op
    case Add(e) => Insert(hash, depthLimit, c, e).c
    case Check(e, erase) => Erase(hash, c, e, erase).1
  }

  lemma ApplyKeeps(hash: Hash, depthLimit: nat, c: Cache, op: Op)
    requires Inv(hash, c)
    ensures Inv(hash, Apply(hash, depthLimit, c, op))
  {
    match op {
      case Add(e) => InsertLosesAtMostOne(hash, depthLimit, c, e);
      case Check(e, erase) => EraseKeeps(hash, c, e, erase);
    }
  }

  function Run(hash: Hash, depthLimit: nat, c: Cache, ops: seq<Op>): (end: Cache)
    requires Inv(hash, c)
    ensures Inv(hash, end)
    decreases |ops|
  {
    if ops == [] then c
    else
      ApplyKeeps(hash, depthLimit, c, ops[0]);
      Run(hash, depthLimit, Apply(hash, depthLimit, c, ops[0]), ops[1..])
  }

  lemma SetupInv(hash: Hash, newSize: nat)
    ensures Inv(hash, Setup(newSize))
  {
    NoneLive(Setup(newSize).collected, Setup(newSize).recent);
  }

  /** In every run of a cache: an element is found exactly if it is in the table, each is there at
      most once and in one of its own slots, and the kept elements of an epoch stay bounded. */
  lemma EveryRunIsSound(hash: Hash, depthLimit: nat, newSize: nat, ops: seq<Op>, e: Elem)
    requires e != DEFAULT
    ensures Inv(hash, Setup(newSize))
    ensures var c := Run(hash, depthLimit, Setup(newSize), ops);
      && (Erase(hash, c, e, false).0 <==> e in c.table)
      && (forall i, j :: 0 <= i < j < |c.table| ==> c.table[i] != e || c.table[j] != e)
      && (forall i :: 0 <= i < |c.table| && c.table[i] == e ==> i in Locs(hash, |c.table|, e))
      && Live(c.collected, c.recent) <= EpochBound(c.epochSize)
  {
    hide Locs, Live, EpochBound;
    SetupInv(hash, newSize);
    ContainsIffInTable(hash, Run(hash, depthLimit, Setup(newSize), ops), e, false);
  }

  /** What is inserted is found next, unless it is the one element that found no room; and finding
      it while erasing does not hide it from the next look. */
  lemma InsertThenContains(hash: Hash, depthLimit: nat, c: Cache, e: Elem)
    requires Inv(hash, c) && e != DEFAULT
    ensures var o := Insert(hash, depthLimit, c, e);
      && (Erase(hash, o.c, e, true).0 <==> o.dropped != Some(e) && o.overwritten != Some(e))
      && (Erase(hash, o.c, e, true).0 ==> Erase(hash, Erase(hash, o.c, e, true).1, e, false).0)
  {
    hide Locs, Homed, Unique, Live, EpochBound, KeepsAllBut, Insert, InsertLoop;
    var o := Insert(hash, depthLimit, c, e);
    InsertLosesAtMostOne(hash, depthLimit, c, e);
    ContainsIffInTable(hash, o.c, e, true);
    EraseKeeps(hash, o.c, e, true);
    ContainsIffInTable(hash, Erase(hash, o.c, e, true).1, e, false);
  }
}
