/** What each operation leaves in the cache it works on: the entry with its flags, every other entry, and
    the memory counter. */
module CoinsEffects {
  import opened Options
  import opened CoinsModel

  /** The top cache agrees with another at every output but one. */
  predicate OnlyAt(s: Stack, t: Stack, o: OutPoint)
    requires s.Layer? && t.Layer?
  {
    t.cache - {o} == s.cache - {o}
  }

  predicate Clean(s: Stack, o: OutPoint) {
    s.Layer? && o in s.cache && !s.cache[o].isDirty && !s.cache[o].isFresh
  }

  /** A coin's memory is nothing, or its script's size rounded up to blocks of sixteen bytes with a block
      of overhead. */
  lemma MemoryIs(c: Coin)
    ensures c.Spent? || |c.out.script| <= 28 ==> Memory(c) == 0
    ensures c.Coin? && |c.out.script| > 28 ==>
      Memory(c) % 16 == 0 && |c.out.script| + 16 <= Memory(c) < |c.out.script| + 32
  {
  }

  // ---------------------------------------------------------------- reads

  /** A lookup that misses leaves the cache alone; one that reaches below leaves a clean copy of the answer,
      FRESH if the coin is spent; and the same lookup again changes nothing at any level. */
  lemma GetEffect(s: Stack, o: OutPoint)
    requires s.Layer?
    ensures var (t, found) := Get(s, o);
      && OnlyAt(s, t, o)
      && (o in s.cache ==> t == s && found == Some(s.cache[o].coin))
      && (o !in s.cache && found.None? ==> t.cache == s.cache && t.usage == s.usage)
      && (o !in s.cache && found.Some? ==>
            o in t.cache && !t.cache[o].isDirty && (t.cache[o].isFresh <==> found.value.Spent?)
            && t.cache[o].coin == found.value && t.usage == s.usage + Memory(found.value))
      && (found.Some? ==> Get(t, o) == (t, found))
  {
  }

  /** A clean entry is gone afterwards and its memory with it; any other stays, and so does all else. */
  lemma UncacheEffect(s: Stack, o: OutPoint)
    requires s.Layer?
    ensures var t := Uncache(s, o);
      && t.Layer? && OnlyAt(s, t, o) && t.below == s.below
      && (Clean(s, o) ==> o !in t.cache && t.usage + Memory(s.cache[o].coin) == s.usage)
      && (!Clean(s, o) ==> t == s)
  {
  }

  /** Uncaching undoes what a lookup of a coin in view did to the top cache. */
  lemma UncacheUndoesGet(s: Stack, o: OutPoint)
    requires Inv(s) && s.Layer? && o !in s.cache && o in View(s)
    ensures var t := Uncache(Get(s, o).0, o);
      t.Layer? && t.cache == s.cache && t.usage == s.usage && View(t) == View(s)
  {
    hide Uncache, Get, Inv, View;
    GetKeepsView(s, o);
    InView(s, o);
    GetEffect(s, o);
    UncacheEffect(Get(s, o).0, o);
    UncacheKeepsView(Get(s, o).0, o);
    var t := Uncache(Get(s, o).0, o);
    assert t.cache == t.cache - {o};
    assert s.cache == s.cache - {o};
  }

  lemma InView(s: Stack, o: OutPoint)
    requires Inv(s) && o in View(s)
    ensures !View(s)[o].Spent?
  {
    ViewHoldsUnspent(s);
  }

  // ---------------------------------------------------------------- additions and spends

  /** Nothing cached for the output, or a spent coin. */
  predicate Vacant(s: Stack, o: OutPoint) { s.Layer? && (o in s.cache ==> s.cache[o].coin.Spent?) }

  /** The level below is known to have no coin: the entry is FRESH, or not DIRTY and no overwriting is to be
      expected. */
  predicate KnownAbsent(s: Stack, o: OutPoint, overwrite: bool)
    requires s.Layer?
  {
    if o in s.cache then s.cache[o].isFresh || (!overwrite && !s.cache[o].isDirty) else !overwrite
  }

  /** The entry left by an addition. */
  lemma AddEffect(s: Stack, o: OutPoint, coin: Coin, overwrite: bool)
    requires s.Layer? && !coin.Spent? && !Unspendable(coin.out.script) && (overwrite || Vacant(s, o))
    ensures var r := AddCoin(s, o, coin, overwrite);
      && r.Added? && r.stack.Layer? && OnlyAt(s, r.stack, o) && r.stack.below == s.below
      && o in r.stack.cache && r.stack.cache[o] == Entry(coin, true, KnownAbsent(s, o, overwrite))
      && r.stack.usage - Memory(coin) == s.usage - (if o in s.cache then Memory(s.cache[o].coin) else 0)
  {
  }

  /** The entry left by a spend: none if it was FRESH, otherwise a spent coin that is DIRTY. */
  lemma SpendEffect(s: Stack, o: OutPoint)
    requires s.Layer? && o in s.cache
    ensures var (t, found) := Spend(s, o);
      && found && t.Layer? && OnlyAt(s, t, o) && t.below == s.below
      && t.usage + Memory(s.cache[o].coin) == s.usage
      && (o in t.cache <==> !s.cache[o].isFresh) && (o in t.cache ==> t.cache[o] == Entry(Spent, true, false))
  {
  }

  /** A coin added and spent again before any flush leaves no trace in the cache if the level below was known
      to have none, and otherwise a spent entry to be written down. */
  lemma AddThenSpend(s: Stack, o: OutPoint, coin: Coin, overwrite: bool)
    requires Vacant(s, o) && !coin.Spent? && !Unspendable(coin.out.script)
    ensures var r := AddCoin(s, o, coin, overwrite);
      r.Added? && r.stack.Layer? &&
      var t := Spend(r.stack, o).0;
      && t.Layer? && OnlyAt(s, t, o) && t.usage == s.usage && t.below == s.below
      && Lookup(t.cache, o) == if KnownAbsent(s, o, overwrite) then None else Some(Entry(Spent, true, false))
  {
    hide AddCoin, Spend;
    AddEffect(s, o, coin, overwrite);
    SpendEffect(AddCoin(s, o, coin, overwrite).stack, o);
  }

  // ---------------------------------------------------------------- write-back

  /** What the parent's entry becomes when the child's is written, case by case. */
  predicate Settles(child: Option<Entry>, was: Option<Entry>, now: Option<Entry>) {
    if child.None? || !child.value.isDirty then now == was
    else if child.value.coin.Spent? then
      if was.None? then now == (if child.value.isFresh then None else Some(Entry(Spent, true, false)))
      else now == if was.value.isFresh then None else Some(Entry(Spent, true, false))
    else
      && now.Some? && now.value.coin == child.value.coin && now.value.isDirty
      && (now.value.isFresh <==> if was.None? then child.value.isFresh else was.value.isFresh)
  }

  /** A flush empties the cache and its counter, and settles every entry with the cache below; a database
      takes exactly the DIRTY entries. */
  lemma FlushEffect(s: Stack)
    requires s.Layer? && Flush(s).Flushed?
    ensures var t := Flush(s).stack;
      && t.Layer? && t.cache == map[] && t.usage == 0 && (t.below.Layer? <==> s.below.Layer?)
      && (s.below.Layer? ==>
            t.below.below == s.below.below
            && forall o :: Settles(Lookup(s.cache, o), Lookup(s.below.cache, o), Lookup(t.below.cache, o)))
      && (s.below.Database? ==> forall o :: o !in s.cache || !s.cache[o].isDirty ==>
            (o in t.below.coins <==> o in s.below.coins)
            && (o in t.below.coins ==> t.below.coins[o] == s.below.coins[o]))
      && (s.below.Database? ==> forall o :: o in s.cache && s.cache[o].isDirty ==>
            (o in t.below.coins <==> !s.cache[o].coin.Spent?)
            && (o in t.below.coins ==> t.below.coins[o] == s.cache[o].coin))
  {
    var t := Flush(s).stack;
    if s.below.Layer? {
      forall o ensures Settles(Lookup(s.cache, o), Lookup(s.below.cache, o), Lookup(t.below.cache, o)) {
        assert o in s.below.cache.Keys + s.cache.Keys <==> o in s.below.cache || o in s.cache;
      }
    }
  }

  predicate Clashes(child: Cache, parent: Cache, o: OutPoint) {
    o in child && child[o].isDirty && child[o].isFresh && o in parent && !parent[o].coin.Spent?
  }

  /** The flush raises the error exactly for a DIRTY and FRESH entry over an unspent one. */
  lemma FlushFailsIff(s: Stack)
    requires s.Layer?
    ensures Flush(s).FlushFailed? <==> s.below.Layer? && exists o :: Clashes(s.cache, s.below.cache, o)
  {
    if s.below.Layer? {
      var child, parent := s.cache, s.below.cache;
      forall o ensures Clashes(child, parent, o) <==> o in child && MisappliedAt(parent, child, o) {
      }
      if o :| Clashes(child, parent, o) { assert MisappliedAt(parent, child, o); }
      if o :| o in child && MisappliedAt(parent, child, o) { assert Clashes(child, parent, o); }
    }
  }

  /** A coin added, flushed to a cache that knew nothing of it, spent and flushed again is gone from that cache
      too: nothing is left to write further down. */
  lemma ShortLivedCoin(s: Stack, o: OutPoint, coin: Coin)
    requires Inv(s) && s.Layer? && s.below.Layer? && o !in s.cache && o !in s.below.cache && o !in View(s)
    requires !coin.Spent? && !Unspendable(coin.out.script)
    ensures var r := AddCoin(s, o, coin, false);
      r.Added? && r.stack.Layer? && Flush(r.stack).Flushed? &&
      var t := Flush(r.stack).stack;
      t.Layer? &&
      var u := Spend(t, o).0;
      u.Layer? && Flush(u).Flushed? &&
      var w := Flush(u).stack;
      w.Layer? && w.below.Layer? && o !in w.cache && o !in w.below.cache
  {
    hide AddCoin, Spend, Flush, Inv, View;
    AddEffect(s, o, coin, false);
    AddCoinIff(s, o, coin, false);
    var r := AddCoin(s, o, coin, false).stack;
    FlushKeepsView(r);
    FlushEffect(r);
    var t := Flush(r).stack;
    assert Settles(Lookup(r.cache, o), Lookup(r.below.cache, o), Lookup(t.below.cache, o));
    FetchedFresh(t, o, coin);
    SpendRemoves(t, o);
    var u := Spend(t, o).0;
    FlushKeepsView(u);
    FlushEffect(u);
    assert Settles(Lookup(u.cache, o), Lookup(u.below.cache, o), Lookup(Flush(u).stack.below.cache, o));
  }

  /** Spending through an empty cache what a FRESH entry below holds: the spend is marked DIRTY above, and the
      entry below stays FRESH. */
  lemma FetchedFresh(t: Stack, o: OutPoint, coin: Coin)
    requires t.Layer? && t.below.Layer? && o !in t.cache && o in t.below.cache
    requires t.below.cache[o] == Entry(coin, true, true) && !coin.Spent?
    ensures var u := Spend(t, o).0;
      u.Layer? && u.below == t.below && o in u.cache && u.cache[o] == Entry(Spent, true, false)
  {
    assert Get(t.below, o) == (t.below, Some(coin));
  }
}
