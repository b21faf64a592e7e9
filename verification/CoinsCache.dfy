/** The mutable coin caches.  Each method is proved to do to the whole stack under it what the
    value-level function of CoinsModel does. */
module CoinsCache {
  import opened CoinsModel
  import opened Options

  /** What writing one more entry does to the database. */
  lemma WriteOne(coins: map<OutPoint, Coin>, child: Cache, done: set<OutPoint>, o: OutPoint)
    requires o in child && o !in done
    ensures WriteDatabase(coins, Restrict(child, done + {o}))
         == var before := WriteDatabase(coins, Restrict(child, done));
            if !child[o].isDirty then before
            else if child[o].coin.Spent? then before - {o}
            else before[o := child[o].coin]
  {
  }

  lemma NothingWritten(coins: map<OutPoint, Coin>, child: Cache)
    ensures WriteDatabase(coins, Restrict(child, child.Keys - child.Keys)) == coins
    ensures Restrict(child, child.Keys) == child
  {
  }

  class CoinsDatabase {
    var coins: map<OutPoint, Coin>

    constructor (initial: map<OutPoint, Coin>)
      ensures coins == initial
    {
      coins := initial;
    }

    method BatchWrite(child: Cache)
      modifies this
      ensures coins == WriteDatabase(old(coins), child)
    {
      hide WriteDatabase, Restrict;
      var pending := child.Keys;
      NothingWritten(coins, child);
      while pending != {}
        invariant pending <= child.Keys
        invariant coins == WriteDatabase(old(coins), Restrict(child, child.Keys - pending))
      {
        var o :| o in pending;
        WriteOne(old(coins), child, child.Keys - pending, o);
        if child[o].isDirty {
          if child[o].coin.Spent? {
            coins := coins - {o};
          } else {
            coins := coins[o := child[o].coin];
          }
        }
        assert child.Keys - pending + {o} == child.Keys - (pending - {o});
        pending := pending - {o};
      }
      assert child.Keys - {} == child.Keys;
    }
  }

  class CoinsViewCache {
    const db: CoinsDatabase
    const parent: CoinsViewCache?
    /** The objects of the stack this cache tops, and how many caches lie below it. */
    ghost const repr: set<object>
    ghost const height: nat

    var cacheCoins: Cache
    var cachedCoinsUsage: int

    ghost predicate Linked()
      decreases height
    {
      && this in repr && db in repr
      && (parent == null ==> height == 0 && repr == {this, db})
      && (parent != null ==>
            && height > 0 && parent.height == height - 1 && parent.db == db
            && this !in parent.repr && repr == {this} + parent.repr
            && parent.Linked())
    }

    ghost function Snapshot(): (s: Stack)
      requires Linked()
      reads repr
      ensures s.Layer?
      decreases height
    {
      Layer(cacheCoins, cachedCoinsUsage, Below())
    }

    ghost function Below(): Stack
      requires Linked()
      reads repr - {this}
      decreases height, 0
    {
      if parent == null then Database(db.coins) else parent.Snapshot()
    }

    constructor OnDatabase(db: CoinsDatabase)
      ensures Linked() && fresh(repr - {db}) && this.db == db
      ensures Snapshot() == Layer(map[], 0, Database(db.coins))
    {
      this.db := db;
      parent := null;
      repr := {this, db};
      height := 0;
      cacheCoins := map[];
      cachedCoinsUsage := 0;
    }

    constructor OnCache(base: CoinsViewCache)
      requires base.Linked()
      ensures Linked() && fresh(repr - base.repr)
      ensures Snapshot() == Layer(map[], 0, base.Snapshot())
    {
      db := base.db;
      parent := base;
      repr := {this} + base.repr;
      height := base.height + 1;
      cacheCoins := map[];
      cachedCoinsUsage := 0;
    }

    /** Find the entry, pulling it up from the level below when this cache lacks it. */
    method FetchCoin(o: OutPoint) returns (found: bool)
      requires Linked()
      modifies repr
      ensures Snapshot() == Get(old(Snapshot()), o).0
      ensures found == Get(old(Snapshot()), o).1.Some?
      ensures found ==> o in cacheCoins && Get(old(Snapshot()), o).1 == Some(cacheCoins[o].coin)
      decreases height, 0
    {
      if o in cacheCoins {
        return true;
      }
      var below: Option<Coin>;
      if parent == null {
        below := if o in db.coins then Some(db.coins[o]) else None;
      } else {
        below := parent.GetCoin(o);
      }
      if below.None? {
        return false;
      }
      var coin := below.value;
      cacheCoins := cacheCoins[o := Entry(coin, false, coin.Spent?)];
      cachedCoinsUsage := cachedCoinsUsage + Memory(coin);
      return true;
    }

    method GetCoin(o: OutPoint) returns (r: Option<Coin>)
      requires Linked()
      modifies repr
      ensures Snapshot() == Get(old(Snapshot()), o).0
      ensures r == Get(old(Snapshot()), o).1
      decreases height, 1
    {
      var found := FetchCoin(o);
      r := if found then Some(cacheCoins[o].coin) else None;
    }

    method HaveCoin(o: OutPoint) returns (have: bool)
      requires Linked() && Inv(Snapshot())
      modifies repr
      ensures Inv(Snapshot()) && View(Snapshot()) == old(View(Snapshot()))
      ensures have <==> o in View(Snapshot())
    {
      GetKeepsView(Snapshot(), o);
      ViewHoldsUnspent(Snapshot());
      var found := FetchCoin(o);
      have := found && !cacheCoins[o].coin.Spent?;
    }

    method AddCoin(o: OutPoint, coin: Coin, overwrite: bool) returns (threw: bool)
      requires Linked() && !coin.Spent?
      modifies this
      ensures threw <==> CoinsModel.AddCoin(old(Snapshot()), o, coin, overwrite).ReplacesUnspent?
      ensures Snapshot() == CoinsModel.AddCoin(old(Snapshot()), o, coin, overwrite).stack
    {
      if Unspendable(coin.out.script) {
        return false;
      }
      var inserted := o !in cacheCoins;
      var entry := if inserted then Entry(Spent, false, false) else cacheCoins[o];
      var becomesFresh := false;
      if !inserted {
        cachedCoinsUsage := cachedCoinsUsage - Memory(entry.coin);
      }
      if !overwrite {
        if !entry.coin.Spent? {
          return true;
        }
        becomesFresh := !entry.isDirty;
      }
      cacheCoins := cacheCoins[o := Entry(coin, true, entry.isFresh || becomesFresh)];
      cachedCoinsUsage := cachedCoinsUsage + Memory(coin);
      return false;
    }

    method SpendCoin(o: OutPoint) returns (r: Option<Coin>)
      requires Linked()
      modifies repr
      ensures Snapshot() == Spend(old(Snapshot()), o).0
      ensures r.Some? == Spend(old(Snapshot()), o).1
      ensures r == Get(old(Snapshot()), o).1
    {
      var found := FetchCoin(o);
      if !found {
        return None;
      }
      var entry := cacheCoins[o];
      cachedCoinsUsage := cachedCoinsUsage - Memory(entry.coin);
      r := Some(entry.coin);
      if entry.isFresh {
        cacheCoins := cacheCoins - {o};
      } else {
        cacheCoins := cacheCoins[o := Entry(Spent, true, entry.isFresh)];
      }
    }

    method Uncache(o: OutPoint)
      requires Linked()
      modifies this
      ensures Snapshot() == CoinsModel.Uncache(old(Snapshot()), o)
    {
      if o in cacheCoins && !cacheCoins[o].isDirty && !cacheCoins[o].isFresh {
        cachedCoinsUsage := cachedCoinsUsage - Memory(cacheCoins[o].coin);
        cacheCoins := cacheCoins - {o};
      }
    }

    /** Write one child entry into this cache. */
    method WriteEntry(o: OutPoint, entry: Entry) returns (threw: bool)
      modifies this
      ensures threw <==> entry.isDirty && entry.isFresh
                         && o in old(cacheCoins) && !old(cacheCoins)[o].coin.Spent?
      ensures !threw ==>
        cacheCoins == Put(old(cacheCoins), o, Merge(Lookup(old(cacheCoins), o), entry))
      ensures !threw ==>
        cachedCoinsUsage - Total(cacheCoins) == old(cachedCoinsUsage - Total(cacheCoins))
    {
      PutTotal(cacheCoins, o, Merge(Lookup(cacheCoins, o), entry));
      if entry.isDirty {
        if o !in cacheCoins {
          if !(entry.isFresh && entry.coin.Spent?) {
            cacheCoins := cacheCoins[o := Entry(entry.coin, true, entry.isFresh)];
            cachedCoinsUsage := cachedCoinsUsage + Memory(entry.coin);
          }
        } else {
          var ours := cacheCoins[o];
          if entry.isFresh && !ours.coin.Spent? {
            return true;
          }
          cachedCoinsUsage := cachedCoinsUsage - Memory(ours.coin);
          if ours.isFresh && entry.coin.Spent? {
            cacheCoins := cacheCoins - {o};
          } else {
            cacheCoins := cacheCoins[o := Entry(entry.coin, true, ours.isFresh)];
            cachedCoinsUsage := cachedCoinsUsage + Memory(entry.coin);
          }
        }
      }
      return false;
    }

    /** Write a child's entries into this cache, in whatever order the child yields them. */
    method BatchWrite(child: Cache) returns (threw: bool)
      requires Linked()
      modifies this
      ensures threw <==> Misapplied(old(cacheCoins), child)
      ensures !threw ==> Wrote(Snapshot()) == CoinsModel.BatchWrite(old(Snapshot()), child)
    {
      ghost var before := cacheCoins;
      var pending := child.Keys;
      assert MergeAll(before, Restrict(child, {})) == before;
      while pending != {}
        invariant pending <= child.Keys
        invariant Below() == old(Below())
        invariant cacheCoins == MergeAll(before, Restrict(child, child.Keys - pending))
        invariant cachedCoinsUsage - Total(cacheCoins) == old(cachedCoinsUsage) - Total(before)
        invariant forall o :: o in child && o !in pending ==> !MisappliedAt(before, child, o)
      {
        var o :| o in pending;
        MergeStep(before, child, child.Keys - pending, o);
        assert child.Keys - (pending - {o}) == child.Keys - pending + {o};
        threw := WriteEntry(o, child[o]);
        if threw {
          assert MisappliedAt(before, child, o);
          return;
        }
        pending := pending - {o};
      }
      assert Restrict(child, child.Keys - pending) == child;
      return false;
    }

    method Flush() returns (threw: bool)
      requires Linked()
      modifies repr
      ensures threw <==> CoinsModel.Flush(old(Snapshot())).FlushFailed?
      ensures !threw ==> CoinsModel.Flush(old(Snapshot())) == Flushed(Snapshot())
      ensures threw ==> cacheCoins == old(cacheCoins) && cachedCoinsUsage == old(cachedCoinsUsage)
    {
      threw := false;
      if parent == null {
        db.BatchWrite(cacheCoins);
      } else {
        assert Snapshot().below == parent.Snapshot();
        threw := parent.BatchWrite(cacheCoins);
        if threw { return; }
      }
      cacheCoins := map[];
      cachedCoinsUsage := 0;
    }
  }

  // ---------------------------------------------------------------- whole transactions

  datatype Tx = Tx(id: nat, outs: seq<TxOut>, isCoinbase: bool, prevouts: seq<OutPoint>)

  /** The plain map once the first `k` outputs of a transaction have been added. */
  function WithOutputs(m: map<OutPoint, Coin>, tx: Tx, height: nat, k: nat): map<OutPoint, Coin>
    requires k <= |tx.outs|
  {
    if k == 0 then m
    else
      var m' := WithOutputs(m, tx, height, k - 1);
      if Unspendable(tx.outs[k - 1].script) then m'
      else m'[OutPoint(tx.id, k - 1) := Coin(tx.outs[k - 1], height, tx.isCoinbase)]
  }

  /** Every spendable output is there afterwards with its own coin; nothing else moves. */
  lemma {:induction false} WithOutputsAt(m: map<OutPoint, Coin>, tx: Tx, height: nat, k: nat,
                                         o: OutPoint)
    requires k <= |tx.outs|
    ensures var m' := WithOutputs(m, tx, height, k);
            var added := o.txid == tx.id && o.n < k && !Unspendable(tx.outs[o.n].script);
            && (added ==> o in m' && m'[o] == Coin(tx.outs[o.n], height, tx.isCoinbase))
            && (!added ==> (o in m' <==> o in m) && (o in m ==> m'[o] == m[o]))
  {
    if k > 0 {
      WithOutputsAt(m, tx, height, k - 1, o);
    }
  }

  /** Add all outputs of a transaction.  With `check` the cache finds out itself what would be
      overwritten; without it only coinbase outputs may already exist. */
  method AddCoins(cache: CoinsViewCache, tx: Tx, height: nat, check: bool)
    requires cache.Linked() && Inv(cache.Snapshot())
    requires !check && !tx.isCoinbase ==>
               forall i :: 0 <= i < |tx.outs| ==> OutPoint(tx.id, i) !in View(cache.Snapshot())
    modifies cache.repr
    ensures Inv(cache.Snapshot())
    ensures View(cache.Snapshot())
         == WithOutputs(old(View(cache.Snapshot())), tx, height, |tx.outs|)
  {
    ghost var start := View(cache.Snapshot());
    for i := 0 to |tx.outs|
      invariant Inv(cache.Snapshot())
      invariant View(cache.Snapshot()) == WithOutputs(start, tx, height, i)
    {
      var o := OutPoint(tx.id, i);
      var overwrite := tx.isCoinbase;
      if check {
        overwrite := cache.HaveCoin(o);
      }
      WithOutputsAt(start, tx, height, i, o);
      var coin := Coin(tx.outs[i], height, tx.isCoinbase);
      AddCoinIff(cache.Snapshot(), o, coin, overwrite);
      var threw := cache.AddCoin(o, coin, overwrite);
    }
  }

  method HaveInputs(cache: CoinsViewCache, tx: Tx) returns (have: bool)
    requires cache.Linked() && Inv(cache.Snapshot())
    modifies cache.repr
    ensures Inv(cache.Snapshot()) && View(cache.Snapshot()) == old(View(cache.Snapshot()))
    ensures have <==>
      tx.isCoinbase || forall i :: 0 <= i < |tx.prevouts| ==> tx.prevouts[i] in View(cache.Snapshot())
  {
    if tx.isCoinbase {
      return true;
    }
    for i := 0 to |tx.prevouts|
      invariant Inv(cache.Snapshot()) && View(cache.Snapshot()) == old(View(cache.Snapshot()))
      invariant forall j :: 0 <= j < i ==> tx.prevouts[j] in View(cache.Snapshot())
    {
      var ok := cache.HaveCoin(tx.prevouts[i]);
      if !ok {
        return false;
      }
    }
    return true;
  }
}
