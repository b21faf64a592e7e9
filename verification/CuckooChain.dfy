/** What an insertion into the cuckoo cache does, told without the loop: the elements it moves, where to,
    why it had to move them, and where it ends. */
module CuckooChain {
  import opened Arithmetic
  import opened Options
  import opened CuckooModel

  /** Every slot the element could go to is kept. */
  predicate Crowded(hash: Hash, c: Cache, e: Elem)
    requires Shaped(c)
  {
    forall k :: 0 <= k < 8 ==> !c.collected[Loc(hash, |c.table|, k, e)]
  }

  /** Element `elems[i]` is put in slot `slots[i]` and takes the place of `elems[i + 1]`; the last element is
      left over. */
  datatype Chain = Chain(elems: seq<Elem>, slots: seq<nat>)

  /** The table after the first `n` moves. */
  function Moved(table: seq<Elem>, ch: Chain, n: nat): (r: seq<Elem>)
    requires n <= |ch.slots| < |ch.elems| && forall i :: 0 <= i < n ==> ch.slots[i] < |table|
    ensures |r| == |table|
  {
    if n == 0 then table else Moved(table, ch, n - 1)[ch.slots[n - 1] := ch.elems[n - 1]]
  }

  /** The slot tried next: the one listed after the first mention of the slot last used, or else the second. */
  predicate Succeeds(locs: seq<nat>, last: Option<nat>, loc: nat)
    requires |locs| == 8
  {
    if last.Some? && last.value in locs then
      exists k :: 0 <= k < 8 && locs[k] == last.value && last.value !in locs[..k] && loc == locs[(k + 1) % 8]
    else loc == locs[1]
  }

  predicate InTable(c: Cache, ch: Chain) {
    |ch.elems| == |ch.slots| + 1 && forall i :: 0 <= i < |ch.slots| ==> ch.slots[i] < |c.table|
  }

  /** Why move `i` is made: nothing was open to the element, so it takes the slot after the one its
      predecessor took. */
  predicate Forced(hash: Hash, c: Cache, ch: Chain, last: Option<nat>, i: nat)
    requires Shaped(c) && InTable(c, ch) && i < |ch.slots|
  {
    && Crowded(hash, c, ch.elems[i])
    && Succeeds(Locs(hash, |c.table|, ch.elems[i]), if i == 0 then last else Some(ch.slots[i - 1]), ch.slots[i])
    && ch.elems[i + 1] == Moved(c.table, ch, i)[ch.slots[i]]
  }

  predicate Chained(hash: Hash, c: Cache, e: Elem, last: Option<nat>, ch: Chain)
    requires Shaped(c)
  {
    InTable(c, ch) && ch.elems[0] == e && forall i :: 0 <= i < |ch.slots| ==> Forced(hash, c, ch, last, i)
  }

  predicate PutIn(hash: Hash, c: Cache, table: seq<Elem>, left: Elem, loc: nat, o: Outcome)
    requires Shaped(c) && |table| == |c.table|
  {
    && loc < |table| && First(c.collected, Locs(hash, |c.table|, left), loc)
    && o.c.table == table[loc := left] && o.c.collected == c.collected[loc := false]
    && o.overwritten == Some(table[loc]) && o.dropped.None?
  }

  /** The element left over goes to its first open slot, over garbage; or there were as many moves as allowed,
      and it is dropped. */
  ghost predicate Ends(hash: Hash, c: Cache, ch: Chain, depth: nat, o: Outcome)
    requires Shaped(c) && InTable(c, ch)
  {
    var n := |ch.slots|;
    var left, table := ch.elems[n], Moved(c.table, ch, n);
    if n < depth then exists loc: nat :: PutIn(hash, c, table, left, loc, o)
    else
      n == depth && o.c.table == table && o.c.collected == c.collected && o.overwritten.None? && o.dropped == Some(left)
  }

  lemma NextSucceeds(locs: seq<nat>, last: Option<nat>)
    requires |locs| == 8
    ensures Succeeds(locs, last, NextLoc(locs, last))
  {
    var k := Find(locs, last);
    if k < 8 { assert last.value !in locs[..k]; }
  }

  lemma CrowdedIff(hash: Hash, c: Cache, e: Elem)
    requires Shaped(c)
    ensures Crowded(hash, c, e) <==> Open(c.collected, Locs(hash, |c.table|, e)).None?
  {
    hide Loc;
    var locs := Locs(hash, |c.table|, e);
    var free := Open(c.collected, locs);
    if free.None? {
      forall k | 0 <= k < 8 ensures !c.collected[Loc(hash, |c.table|, k, e)] { assert !c.collected[locs[k]]; }
    } else {
      var k :| 0 <= k < |locs| && locs[k] == free.value && c.collected[free.value];
      assert c.collected[Loc(hash, |c.table|, k, e)];
    }
  }

  /** A chain with one move before it. */
  function Before(e: Elem, loc: nat, ch: Chain): Chain { Chain([e] + ch.elems, [loc] + ch.slots) }

  lemma {:induction false} MovedBefore(table: seq<Elem>, e: Elem, loc: nat, ch: Chain, n: nat)
    requires loc < |table| && n <= |ch.slots| < |ch.elems| && forall i :: 0 <= i < n ==> ch.slots[i] < |table|
    ensures var ch' := Before(e, loc, ch);
      (forall i :: 0 <= i < n + 1 ==> ch'.slots[i] < |table|) &&
      Moved(table, ch', n + 1) == Moved(table[loc := e], ch, n)
  {
    var ch' := Before(e, loc, ch);
    if n == 0 {
      assert Moved(table, ch', 0) == table;
    } else {
      MovedBefore(table, e, loc, ch, n - 1);
      assert ch'.slots[n] == ch.slots[n - 1] && ch'.elems[n] == ch.elems[n - 1];
    }
  }

  lemma ChainedBefore(hash: Hash, c: Cache, e: Elem, last: Option<nat>, loc: nat, epoch: bool, ch: Chain)
    requires Shaped(c) && loc < |c.table| && Crowded(hash, c, e)
    requires Succeeds(Locs(hash, |c.table|, e), last, loc)
    requires Chained(hash, Swapped(c, loc, e, epoch), c.table[loc], Some(loc), ch)
    ensures Chained(hash, c, e, last, Before(e, loc, ch))
  {
    hide Locs, Loc, Crowded, Succeeds;
    var c', ch' := Swapped(c, loc, e, epoch), Before(e, loc, ch);
    assert InTable(c, ch');
    forall i | 0 <= i < |ch'.slots| ensures Forced(hash, c, ch', last, i) {
      if i == 0 {
        assert ch'.elems[1] == ch.elems[0];
      } else {
        assert Forced(hash, c', ch, Some(loc), i - 1);
        assert ch'.elems[i] == ch.elems[i - 1] && ch'.slots[i] == ch.slots[i - 1] && ch'.elems[i + 1] == ch.elems[i];
        CrowdedSame(hash, c, c', ch.elems[i - 1]);
        MovedBefore(c.table, e, loc, ch, i - 1);
      }
    }
  }

  lemma CrowdedSame(hash: Hash, c: Cache, c': Cache, e: Elem)
    requires Shaped(c) && Shaped(c') && c'.collected == c.collected
    ensures Crowded(hash, c', e) <==> Crowded(hash, c, e)
  {
  }

  lemma EndsBefore(hash: Hash, c: Cache, e: Elem, loc: nat, epoch: bool, ch: Chain, depth: nat, o: Outcome)
    requires Shaped(c) && loc < |c.table| && depth > 0 && InTable(c, ch)
    requires Ends(hash, Swapped(c, loc, e, epoch), ch, depth - 1, o)
    ensures InTable(c, Before(e, loc, ch)) && Ends(hash, c, Before(e, loc, ch), depth, o)
  {
    hide Locs, First;
    var n := |ch.slots|;
    MovedBefore(c.table, e, loc, ch, n);
    var c' := Swapped(c, loc, e, epoch);
    var left, table := ch.elems[n], Moved(c'.table, ch, n);
    assert Before(e, loc, ch).elems[n + 1] == left;
    if n < depth - 1 {
      var at: nat :| PutIn(hash, c', table, left, at, o);
      assert PutIn(hash, c, table, left, at, o);
    }
  }

  lemma EndsAtOnce(hash: Hash, c: Cache, e: Elem, loc: nat, depth: nat, o: Outcome)
    requires Shaped(c) && depth > 0 && loc < |c.table| && First(c.collected, Locs(hash, |c.table|, e), loc)
    requires o.c.table == c.table[loc := e] && o.c.collected == c.collected[loc := false]
    requires o.overwritten == Some(c.table[loc]) && o.dropped.None?
    ensures Ends(hash, c, Chain([e], []), depth, o)
  {
    hide Locs, First;
    var ch := Chain([e], []);
    assert |ch.slots| == 0 && ch.elems[0] == e && Moved(c.table, ch, 0) == c.table;
    assert PutIn(hash, c, Moved(c.table, ch, 0), ch.elems[0], loc, o);
  }

  /** The loop makes such a chain. */
  lemma {:induction false} LoopChains(hash: Hash, c: Cache, e: Elem, last: Option<nat>, epoch: bool, depth: nat)
    returns (ch: Chain)
    requires Shaped(c)
    ensures Chained(hash, c, e, last, ch) && Ends(hash, c, ch, depth, InsertLoop(hash, c, e, last, epoch, depth))
    decreases depth
  {
    hide Locs, Loc, First, Succeeds, Crowded;
    var locs := Locs(hash, |c.table|, e);
    var free := Open(c.collected, locs);
    if depth == 0 {
      ch := Chain([e], []);
    } else if free.Some? {
      ch := Chain([e], []);
      EndsAtOnce(hash, c, e, free.value, depth, InsertLoop(hash, c, e, last, epoch, depth));
    } else {
      var loc := NextLoc(locs, last);
      var c' := Swapped(c, loc, e, epoch);
      CrowdedIff(hash, c, e);
      NextSucceeds(locs, last);
      var rest := LoopChains(hash, c', c.table[loc], Some(loc), c.recent[loc], depth - 1);
      ChainedBefore(hash, c, e, last, loc, epoch, rest);
      EndsBefore(hash, c, e, loc, epoch, rest, depth, InsertLoop(hash, c, e, last, epoch, depth));
      ch := Before(e, loc, rest);
    }
  }

  // ---------------------------------------------------------------- what an insertion does

  /** Inserting an element the cache does not hold: it and what it displaces move on one after the other, each
      for want of an open slot, until one finds a slot open or all moves are used up. */
  lemma InsertChains(hash: Hash, depthLimit: nat, c: Cache, e: Elem) returns (ch: Chain)
    requires Inv(hash, c) && Shaped(EpochCheck(c))
    requires Holding(EpochCheck(c).table, Locs(hash, |EpochCheck(c).table|, e), e).None?
    ensures Chained(hash, EpochCheck(c), e, None, ch)
    ensures Ends(hash, EpochCheck(c), ch, depthLimit, Insert(hash, depthLimit, c, e))
  {
    hide Locs, Chained, Ends, Holding, InsertLoop;
    ch := LoopChains(hash, EpochCheck(c), e, None, true, depthLimit);
  }

  /** An element held already stays where it is, and is kept. */
  lemma InsertHeld(hash: Hash, depthLimit: nat, c: Cache, e: Elem)
    requires Inv(hash, c) && e != DEFAULT && e in c.table
    ensures var o := Insert(hash, depthLimit, c, e);
      Shaped(o.c) && o.c.table == c.table && o.overwritten.None? && o.dropped.None? && Kept(o.c, e) && Current(o.c, e)
  {
    hide Locs, Live, Unique;
    EpochCheckKeeps(hash, c);
    var c1 := EpochCheck(c);
    ContainsIffInTable(hash, c1, e, false);
    var o := Insert(hash, depthLimit, c, e);
    var held := Holding(c1.table, Locs(hash, |c1.table|, e), e);
    assert o.c.table[held.value] == e && !o.c.collected[held.value] && o.c.recent[held.value];
  }

  /** Where there is room it is used: unless all eight slots are kept, the element is in the cache afterwards,
      kept, and no other element is dropped for it. */
  lemma RoomIsUsed(hash: Hash, depthLimit: nat, c: Cache, e: Elem)
    requires Inv(hash, c) && e != DEFAULT && depthLimit > 0 && Shaped(EpochCheck(c))
    requires e in c.table || !Crowded(hash, EpochCheck(c), e)
    ensures var o := Insert(hash, depthLimit, c, e);
      Shaped(o.c) && o.dropped.None? && Kept(o.c, e) && Erase(hash, o.c, e, false).0
  {
    hide Locs, Loc, Live, Unique, Homed, InsertLoop, EpochBound, Crowded, KeepsAllBut, Conserves, Chained, Ends;
    var o := Insert(hash, depthLimit, c, e);
    InsertLosesAtMostOne(hash, depthLimit, c, e);
    if e in c.table {
      InsertHeld(hash, depthLimit, c, e);
    } else {
      EpochCheckKeeps(hash, c);
      NoneHolds(hash, EpochCheck(c), e);
      var ch := InsertChains(hash, depthLimit, c, e);
      NotMoved(hash, EpochCheck(c), e, ch, depthLimit, o);
    }
    KeptIsThere(o.c, e);
    ContainsIffInTable(hash, o.c, e, false);
  }

  lemma NoneHolds(hash: Hash, c: Cache, e: Elem)
    requires Shaped(c) && e !in c.table
    ensures Holding(c.table, Locs(hash, |c.table|, e), e).None?
  {
  }

  lemma NotMoved(hash: Hash, c: Cache, e: Elem, ch: Chain, depth: nat, o: Outcome)
    requires Shaped(c) && Shaped(o.c) && Chained(hash, c, e, None, ch) && Ends(hash, c, ch, depth, o)
    requires !Crowded(hash, c, e) && depth > 0
    ensures o.dropped.None? && Kept(o.c, e)
  {
    hide Locs, Crowded, First;
    assert |ch.slots| > 0 ==> Forced(hash, c, ch, None, 0);
    assert Moved(c.table, ch, 0) == c.table;
    var loc: nat :| PutIn(hash, c, c.table, e, loc, o);
    assert o.c.table[loc] == e && !o.c.collected[loc];
  }

  lemma KeptIsThere(c: Cache, e: Elem)
    requires Shaped(c) && Kept(c, e)
    ensures e in c.table
  {
  }

  /** An element is lost from the kept ones only when every move was used up: as many elements as there are
      moves, the new one first, had all eight slots kept. */
  lemma DroppedOnlyIfFull(hash: Hash, depthLimit: nat, c: Cache, e: Elem) returns (ch: Chain)
    requires Inv(hash, c) && e != DEFAULT && Shaped(EpochCheck(c)) && Insert(hash, depthLimit, c, e).dropped.Some?
    ensures e !in c.table && Chained(hash, EpochCheck(c), e, None, ch) && |ch.slots| == depthLimit
    ensures forall i :: 0 <= i < depthLimit ==> Crowded(hash, EpochCheck(c), ch.elems[i])
    ensures Insert(hash, depthLimit, c, e).dropped == Some(ch.elems[depthLimit])
  {
    hide Locs, Loc, Live, Unique, Homed, InsertLoop, EpochBound, Crowded, Succeeds;
    if e in c.table { InsertHeld(hash, depthLimit, c, e); }
    EpochCheckKeeps(hash, c);
    NoneHolds(hash, EpochCheck(c), e);
    ch := InsertChains(hash, depthLimit, c, e);
    forall i | 0 <= i < depthLimit ensures Crowded(hash, EpochCheck(c), ch.elems[i]) {
      assert Forced(hash, EpochCheck(c), ch, None, i);
    }
  }

  /** The first element inserted into a new cache is found. */
  lemma FirstInsertIsFound(hash: Hash, depthLimit: nat, newSize: nat, e: Elem)
    requires e != DEFAULT && depthLimit > 0
    ensures Erase(hash, Insert(hash, depthLimit, Setup(newSize), e).c, e, false).0
  {
    hide Loc, Live;
    SetupInv(hash, newSize);
    EpochCheckKeeps(hash, Setup(newSize));
    var c1 := EpochCheck(Setup(newSize));
    assert c1.collected[Loc(hash, |c1.table|, 0, e)];
    RoomIsUsed(hash, depthLimit, Setup(newSize), e);
  }

  // ---------------------------------------------------------------- epochs

  /** Kept, and of the current epoch. */
  predicate Current(c: Cache, x: Elem)
    requires Shaped(c)
  {
    exists i :: 0 <= i < |c.table| && c.table[i] == x && !c.collected[i] && c.recent[i]
  }

  /** Moving elements moves their epochs with them. */
  ghost predicate CarriesEpochs(c: Cache, e: Elem, epoch: bool, o: Outcome)
    requires Shaped(c) && Shaped(o.c)
  {
    forall x :: x != DEFAULT ==> (Current(o.c, x) <==> (Current(c, x) || (x == e && epoch)) && o.dropped != Some(x))
  }

  lemma CurrentAfter(c: Cache, loc: nat, e: Elem, epoch: bool, x: Elem)
    requires Shaped(c) && Unique(c.table) && loc < |c.table| && InHand(c, e) && x != DEFAULT
    ensures Current(Put(c, loc, e, epoch), x) <==>
      (Current(c, x) && (c.table[loc] != x || c.collected[loc])) || (x == e && epoch)
  {
    var c' := Put(c, loc, e, epoch);
    assert c'.table[loc] == e && !c'.collected[loc] && c'.recent[loc] == epoch;
    if Current(c, x) && (c.table[loc] != x || c.collected[loc]) {
      var i :| 0 <= i < |c.table| && c.table[i] == x && !c.collected[i] && c.recent[i];
      assert c'.table[i] == x && !c'.collected[i] && c'.recent[i];
    }
    if Current(c', x) && x != e {
      var i :| 0 <= i < |c'.table| && c'.table[i] == x && !c'.collected[i] && c'.recent[i];
      assert c.table[i] == x && !c.collected[i] && c.recent[i];
    }
    if Current(c', x) && x == e {
      var i :| 0 <= i < |c'.table| && c'.table[i] == x && !c'.collected[i] && c'.recent[i];
      if i != loc { assert c.table[i] == e; }
    }
  }

  lemma PutCarries(c: Cache, loc: nat, e: Elem, epoch: bool)
    requires Shaped(c) && Unique(c.table) && loc < |c.table| && InHand(c, e) && c.collected[loc]
    ensures CarriesEpochs(c, e, epoch, Outcome(Put(c, loc, e, epoch), Some(c.table[loc]), None))
  {
    hide Unique, InHand, Current;
    forall x | x != DEFAULT ensures Current(Put(c, loc, e, epoch), x) <==> Current(c, x) || (x == e && epoch) {
      CurrentAfter(c, loc, e, epoch, x);
    }
  }

  lemma SwapCarries(c: Cache, loc: nat, e: Elem, epoch: bool, o: Outcome)
    requires Shaped(c) && Unique(c.table) && loc < |c.table| && InHand(c, e) && !c.collected[loc] && Shaped(o.c)
    requires CarriesEpochs(Swapped(c, loc, e, epoch), c.table[loc], c.recent[loc], o)
    ensures CarriesEpochs(c, e, epoch, o)
  {
    hide Unique, InHand;
    assert c.collected[loc := false] == c.collected;
    assert Put(c, loc, e, epoch) == Swapped(c, loc, e, epoch);
    forall x | x != DEFAULT
      ensures Current(o.c, x) <==> (Current(c, x) || (x == e && epoch)) && o.dropped != Some(x)
    {
      CurrentAfter(c, loc, e, epoch, x);
      CurrentThere(c, loc, x);
    }
  }

  lemma CurrentThere(c: Cache, loc: nat, x: Elem)
    requires Shaped(c) && Unique(c.table) && loc < |c.table| && !c.collected[loc] && x != DEFAULT
    ensures c.table[loc] == x ==> (Current(c, x) <==> c.recent[loc])
  {
    if c.table[loc] == x && Current(c, x) {
      var i :| 0 <= i < |c.table| && c.table[i] == x && !c.collected[i] && c.recent[i];
      assert i == loc;
    }
  }

  lemma DropCarries(c: Cache, e: Elem, epoch: bool)
    requires Shaped(c) && InHand(c, e)
    ensures CarriesEpochs(c, e, epoch, Outcome(c, None, Some(e)))
  {
    forall x | x != DEFAULT && Current(c, x) ensures x in c.table { }
  }

  lemma {:induction false} LoopCarries(hash: Hash, c: Cache, e: Elem, last: Option<nat>, epoch: bool, depth: nat)
    requires Placed(hash, c) && InHand(c, e)
    ensures Shaped(InsertLoop(hash, c, e, last, epoch, depth).c)
    ensures CarriesEpochs(c, e, epoch, InsertLoop(hash, c, e, last, epoch, depth))
    decreases depth
  {
    hide Locs, Open, NextLoc, Homed, Unique, CarriesEpochs;
    if depth == 0 {
      DropCarries(c, e, epoch);
    } else {
      var locs := Locs(hash, |c.table|, e);
      var free := Open(c.collected, locs);
      if free.Some? {
        PutCarries(c, free.value, e, epoch);
      } else {
        var loc := NextLoc(locs, last);
        SwapPlaces(hash, c, loc, e, epoch);
        LoopCarries(hash, Swapped(c, loc, e, epoch), c.table[loc], Some(loc), c.recent[loc], depth - 1);
        SwapCarries(c, loc, e, epoch, InsertLoop(hash, c, e, last, epoch, depth));
      }
    }
  }

  /** An insertion makes the new element one of the current epoch and changes the epoch of no other: those it
      moves take theirs along. */
  lemma InsertCarries(hash: Hash, depthLimit: nat, c: Cache, e: Elem)
    requires Inv(hash, c) && Shaped(EpochCheck(c))
    ensures var o := Insert(hash, depthLimit, c, e); Shaped(o.c) && CarriesEpochs(EpochCheck(c), e, true, o)
  {
    hide Locs, Live, Unique, Homed, CarriesEpochs, InsertLoop;
    var c1 := EpochCheck(c);
    EpochCheckKeeps(hash, c);
    var held := Holding(c1.table, Locs(hash, |c1.table|, e), e);
    if held.Some? {
      TouchCarries(hash, c1, held.value, e);
    } else {
      NotHeld(hash, c1, e);
      LoopCarries(hash, c1, e, None, true, depthLimit);
    }
  }

  lemma TouchCarries(hash: Hash, c: Cache, loc: nat, e: Elem)
    requires Placed(hash, c) && loc < |c.table| && c.table[loc] == e
    ensures CarriesEpochs(c, e, true, Outcome(Put(c, loc, e, true), None, None))
  {
    hide Homed;
    var c' := Put(c, loc, e, true);
    assert c'.table == c.table && c'.table[loc] == e && !c'.collected[loc] && c'.recent[loc];
    forall x | x != DEFAULT ensures Current(c', x) <==> Current(c, x) || x == e {
      if Current(c, x) {
        var i :| 0 <= i < |c.table| && c.table[i] == x && !c.collected[i] && c.recent[i];
        assert c'.table[i] == x && !c'.collected[i] && c'.recent[i];
      }
      if Current(c', x) && x != e {
        var i :| 0 <= i < |c'.table| && c'.table[i] == x && !c'.collected[i] && c'.recent[i];
        assert i != loc;
      }
    }
  }

  /** The whole of the ageing: it happens exactly when the countdown has run out and the current epoch is full.
      Then what was current is no longer, what was not is garbage, and a whole epoch is counted down; otherwise
      nothing but the countdown changes, to a sixteenth of an epoch at least and to where it could be full. */
  lemma EpochCheckAges(c: Cache)
    requires Shaped(c)
    ensures var c1, full := EpochCheck(c), c.counter == 0 && Live(c.collected, c.recent) >= c.epochSize;
      && Shaped(c1) && c1.table == c.table && c1.epochSize == c.epochSize
      && (forall i :: 0 <= i < |c.table| ==> (c1.collected[i] <==> c.collected[i] || (full && !c.recent[i])))
      && (forall i :: 0 <= i < |c.table| ==> (c1.recent[i] <==> c.recent[i] && !full))
      && (c.counter > 0 ==> c1.counter == c.counter - 1) && (full ==> c1.counter == c.epochSize)
      && (c.counter == 0 && !full ==>
            && 1 <= c1.counter && c.epochSize < 16 * (c1.counter + 1)
            && c.epochSize <= c1.counter + Live(c.collected, c.recent)
            && (c1.counter == 1 || 16 * c1.counter <= c.epochSize
                || c1.counter + Live(c.collected, c.recent) == c.epochSize))
  {
    hide Live;
  }

  /** A new cache holds nothing, waits one epoch, and an epoch is forty-five percent of its size, as long as
      that product fits in 32 bits. */
  lemma SetupIsEmpty(hash: Hash, newSize: nat, e: Elem)
    ensures var c := Setup(newSize);
      && |c.table| == Max(2, newSize) && c.counter == c.epochSize && (e != DEFAULT ==> !Erase(hash, c, e, false).0)
      && (forall i :: 0 <= i < |c.table| ==> c.collected[i])
      && (45 * |c.table| < TWO_32 ==>
            100 * c.epochSize <= Max(100, 45 * |c.table|) && 45 * |c.table| < 100 * (c.epochSize + 1))
  {
  }
}
