/** The unspent-output cache stack: a write-back cache whose entries carry DIRTY and FRESH
    flags, over another such cache, over a database.  Everything here is a value; CoinsCache.dfy
    holds the mutable objects and ties them to these functions. */
module CoinsModel {
  import opened Options

  const OP_RETURN: bv8 := 0x6a
  const MAX_SCRIPT_SIZE := 10000
  const DIRECT_SCRIPT_SIZE := 28

  datatype OutPoint = OutPoint(txid: nat, n: nat)

  datatype TxOut = TxOut(value: int, script: seq<bv8>)

  /** `Spent` is a coin whose output is null. */
  datatype Coin = Spent | Coin(out: TxOut, height: nat, coinbase: bool)

  predicate Unspendable(script: seq<bv8>) {
    (|script| > 0 && script[0] == OP_RETURN) || |script| > MAX_SCRIPT_SIZE
  }

  /** Heap memory held by a coin: short scripts are stored in place, longer ones in a block whose
      size is rounded the way a 64-bit allocator rounds it. */
  function Memory(c: Coin): nat {
    if c.Spent? || |c.out.script| <= DIRECT_SCRIPT_SIZE then 0
    else ((|c.out.script| + 31) / 16) * 16
  }

  datatype Entry = Entry(coin: Coin, isDirty: bool, isFresh: bool)

  type Cache = map<OutPoint, Entry>

  /** A database, or a cache over a stack together with its memory counter. */
  datatype Stack =
    | Database(coins: map<OutPoint, Coin>)
    | Layer(cache: Cache, usage: int, below: Stack)

  // ---------------------------------------------------------------- what a stack means

  /** What a cache shows over the view `v`: its own unspent coins, and below them those of `v`. */
  function Overlay(child: Cache, v: map<OutPoint, Coin>): map<OutPoint, Coin> {
    map o | o in child.Keys + v.Keys && (o in child ==> !child[o].coin.Spent?) ::
      if o in child then child[o].coin else v[o]
  }

  /** The unspent outputs a stack stands for. */
  function View(s: Stack): map<OutPoint, Coin> {
    match s
    case Database(coins) => coins
    case Layer(cache, _, below) => Overlay(cache, View(below))
  }

  /** What DIRTY and FRESH promise about the view underneath. */
  predicate Coherent(e: Entry, o: OutPoint, v: map<OutPoint, Coin>) {
    && (e.isFresh ==> o !in v)
    && (!e.isDirty ==> if o in v then e.coin == v[o] else e.coin.Spent?)
  }

  ghost function Total(c: Cache): nat {
    if c == map[] then 0
    else var o :| o in c; Memory(c[o].coin) + Total(c - {o})
  }

  ghost predicate Inv(s: Stack) {
    match s
    case Database(coins) => forall o :: o in coins ==> !coins[o].Spent?
    case Layer(cache, usage, below) =>
      && Inv(below)
      && usage == Total(cache)
      && forall o :: o in cache ==> Coherent(cache[o], o, View(below))
  }

  lemma ViewHoldsUnspent(s: Stack)
    requires Inv(s)
    ensures forall o :: o in View(s) ==> !View(s)[o].Spent?
  {
  }

  lemma OverlayAt(cache: Cache, v: map<OutPoint, Coin>, o: OutPoint)
    ensures o in Overlay(cache, v) <==> if o in cache then !cache[o].coin.Spent? else o in v
    ensures o in Overlay(cache, v) ==>
              Overlay(cache, v)[o] == if o in cache then cache[o].coin else v[o]
  {
    assert o in cache.Keys + v.Keys <==> o in cache || o in v;
  }

  /** Caching what is already below changes nothing. */
  lemma OverlayRedundant(cache: Cache, v: map<OutPoint, Coin>, o: OutPoint, e: Entry)
    requires !e.isDirty && Coherent(e, o, v)
    requires forall p :: p in v ==> !v[p].Spent?
    ensures Overlay(cache[o := e], v) == Overlay(cache - {o}, v)
  {
    forall p
      ensures p in Overlay(cache[o := e], v) <==> p in Overlay(cache - {o}, v)
      ensures p in Overlay(cache[o := e], v) ==>
                Overlay(cache[o := e], v)[p] == Overlay(cache - {o}, v)[p]
    {
      OverlayAt(cache[o := e], v, p);
      OverlayAt(cache - {o}, v, p);
    }
  }

  /** Caching a spent coin removes the coin from the view. */
  lemma OverlaySpend(cache: Cache, v: map<OutPoint, Coin>, o: OutPoint, e: Entry)
    requires e.coin.Spent?
    ensures Overlay(cache[o := e], v) == Overlay(cache, v) - {o}
  {
    forall p
      ensures p in Overlay(cache[o := e], v) <==> p in Overlay(cache, v) - {o}
      ensures p in Overlay(cache[o := e], v) ==>
                Overlay(cache[o := e], v)[p] == (Overlay(cache, v) - {o})[p]
    {
      OverlayAt(cache[o := e], v, p);
      OverlayAt(cache, v, p);
    }
  }

  /** So does erasing an entry that has nothing below it. */
  lemma OverlayErase(cache: Cache, v: map<OutPoint, Coin>, o: OutPoint)
    requires o !in v
    ensures Overlay(cache - {o}, v) == Overlay(cache, v) - {o}
  {
    forall p
      ensures p in Overlay(cache - {o}, v) <==> p in Overlay(cache, v) - {o}
      ensures p in Overlay(cache - {o}, v) ==>
                Overlay(cache - {o}, v)[p] == (Overlay(cache, v) - {o})[p]
    {
      OverlayAt(cache - {o}, v, p);
      OverlayAt(cache, v, p);
    }
  }

  lemma OverlayUpdate(cache: Cache, v: map<OutPoint, Coin>, o: OutPoint, e: Entry)
    requires !e.coin.Spent?
    ensures Overlay(cache[o := e], v) == Overlay(cache, v)[o := e.coin]
  {
    var a, b := Overlay(cache[o := e], v), Overlay(cache, v)[o := e.coin];
    forall p
      ensures p in a <==> p in b
      ensures p in a ==> a[p] == b[p]
    {
      OverlayAt(cache[o := e], v, p);
      OverlayAt(cache, v, p);
    }
  }

  lemma {:induction false} TotalSplit(c: Cache, o: OutPoint)
    requires o in c
    ensures Total(c) == Memory(c[o].coin) + Total(c - {o})
    decreases |c|
  {
    var p :| p in c && Total(c) == Memory(c[p].coin) + Total(c - {p});
    if p != o {
      assert |c - {p}| < |c|;
      assert |c - {o}| < |c|;
      TotalSplit(c - {p}, o);
      TotalSplit(c - {o}, p);
      assert c - {p} - {o} == c - {o} - {p};
    }
  }

  lemma TotalInsert(c: Cache, o: OutPoint, e: Entry)
    ensures Total(c[o := e]) == Memory(e.coin) + Total(c - {o})
  {
    TotalSplit(c[o := e], o);
    assert c[o := e] - {o} == c - {o};
  }

  // ---------------------------------------------------------------- reads

  /** Look `o` up, caching what the level below answers.  A spent coin coming from below is
      cached as FRESH. */
  function Get(s: Stack, o: OutPoint): (r: (Stack, Option<Coin>))
    ensures s.Layer? ==> r.0.Layer?
    ensures s.Layer? && r.1.Some? ==> o in r.0.cache && r.0.cache[o].coin == r.1.value
  {
    match s
    case Database(coins) => (s, if o in coins then Some(coins[o]) else None)
    case Layer(cache, usage, below) =>
      if o in cache then (s, Some(cache[o].coin))
      else
        var (below', found) := Get(below, o);
        match found
        case None => (Layer(cache, usage, below'), None)
        case Some(c) =>
          (Layer(cache[o := Entry(c, false, c.Spent?)], usage + Memory(c), below'), Some(c))
  }

  /** An answer agrees with a view when it gives exactly the unspent coin the view holds; a
      spent coin and no coin both mean the view holds none. */
  predicate Answers(found: Option<Coin>, o: OutPoint, v: map<OutPoint, Coin>) {
    if o in v then found == Some(v[o]) else found.None? || found.value.Spent?
  }

  /** Caching, as a clean entry, the answer the level below gave. */
  lemma CacheClean(s: Stack, o: OutPoint, c: Coin)
    requires Inv(s) && s.Layer? && o !in s.cache && Answers(Some(c), o, View(s.below))
    ensures var e := Entry(c, false, c.Spent?);
            && Total(s.cache[o := e]) == s.usage + Memory(c)
            && Coherent(e, o, View(s.below))
            && Overlay(s.cache[o := e], View(s.below)) == View(s)
  {
    var e := Entry(c, false, c.Spent?);
    ViewHoldsUnspent(s.below);
    TotalInsert(s.cache, o, e);
    assert s.cache - {o} == s.cache;
    OverlayRedundant(s.cache, View(s.below), o, e);
  }

  lemma {:induction false} GetKeepsView(s: Stack, o: OutPoint)
    requires Inv(s)
    ensures Inv(Get(s, o).0)
    ensures View(Get(s, o).0) == View(s)
    ensures Answers(Get(s, o).1, o, View(s))
    ensures Get(s, o).0.Layer? <==> s.Layer?
  {
    match s
    case Database(_) =>
    case Layer(cache, usage, below) =>
      OverlayAt(cache, View(below), o);
      if o !in cache {
        GetKeepsView(below, o);
        var c := Get(below, o).1;
        if c.Some? {
          CacheClean(s, o, c.value);
        }
      }
  }

  /** Forget an entry that differs in nothing from the level below. */
  function Uncache(s: Stack, o: OutPoint): Stack {
    if s.Layer? && o in s.cache && !s.cache[o].isDirty && !s.cache[o].isFresh
    then Layer(s.cache - {o}, s.usage - Memory(s.cache[o].coin), s.below)
    else s
  }

  lemma UncacheKeepsView(s: Stack, o: OutPoint)
    requires Inv(s)
    ensures Inv(Uncache(s, o))
    ensures View(Uncache(s, o)) == View(s)
  {
    if Uncache(s, o) != s {
      TotalSplit(s.cache, o);
      ViewHoldsUnspent(s.below);
      OverlayRedundant(s.cache, View(s.below), o, s.cache[o]);
      assert s.cache[o := s.cache[o]] == s.cache;
    }
  }

  // ---------------------------------------------------------------- updates at the top

  datatype AddResult = Added(stack: Stack) | ReplacesUnspent(stack: Stack)

  /** Add a coin to the top cache.  Unspendable outputs are dropped.  Without leave to overwrite,
      an unspent cached entry is an error, raised after its memory has been subtracted; a spent
      or missing entry that is not DIRTY makes the new one FRESH. */
  function AddCoin(s: Stack, o: OutPoint, coin: Coin, overwrite: bool): (r: AddResult)
    requires s.Layer? && !coin.Spent?
  {
    if Unspendable(coin.out.script) then Added(s)
    else
      var present := o in s.cache;
      var e := if present then s.cache[o] else Entry(Spent, false, false);
      var usage := s.usage - (if present then Memory(e.coin) else 0);
      if !overwrite && !e.coin.Spent? then ReplacesUnspent(s.(usage := usage))
      else
        var becomesFresh := !overwrite && !e.isDirty;
        Added(Layer(s.cache[o := Entry(coin, true, e.isFresh || becomesFresh)],
                    usage + Memory(coin), s.below))
  }

  /** The usage counter AddCoin computes is the memory of the cache it leaves. */
  lemma AddCoinUsage(s: Stack, o: OutPoint, coin: Coin, overwrite: bool)
    requires s.Layer? && !coin.Spent? && s.usage == Total(s.cache)
    requires AddCoin(s, o, coin, overwrite).Added?
    ensures AddCoin(s, o, coin, overwrite).stack.usage
         == Total(AddCoin(s, o, coin, overwrite).stack.cache)
  {
    if !Unspendable(coin.out.script) {
      var e := AddCoin(s, o, coin, overwrite).stack.cache[o];
      TotalInsert(s.cache, o, e);
      if o in s.cache { TotalSplit(s.cache, o); } else { assert s.cache - {o} == s.cache; }
    }
  }

  /** AddCoin does what it promises exactly when the caller kept its side: overwriting was
      allowed, or the view held no coin there (or the output can never be spent).  Otherwise it
      either throws or leaves a FRESH entry above a coin that exists. */
  lemma AddCoinIff(s: Stack, o: OutPoint, coin: Coin, overwrite: bool)
    requires Inv(s) && s.Layer? && !coin.Spent?
    ensures var r := AddCoin(s, o, coin, overwrite);
            (r.Added? && Inv(r.stack)) <==>
            (overwrite || o !in View(s) || Unspendable(coin.out.script))
    ensures AddCoin(s, o, coin, overwrite).Added? && !Unspendable(coin.out.script) ==>
              View(AddCoin(s, o, coin, overwrite).stack) == View(s)[o := coin]
  {
    var r := AddCoin(s, o, coin, overwrite);
    if r.Added? && !Unspendable(coin.out.script) {
      AddCoinUsage(s, o, coin, overwrite);
      OverlayAt(s.cache, View(s.below), o);
      OverlayUpdate(s.cache, View(s.below), o, r.stack.cache[o]);
      ViewHoldsUnspent(s.below);
      if o in s.cache { assert Coherent(s.cache[o], o, View(s.below)); }
      assert overwrite || o !in View(s) ==> Coherent(r.stack.cache[o], o, View(s.below));
      assert !overwrite && o in View(s) ==> !Coherent(r.stack.cache[o], o, View(s.below));
    }
  }

  /** The throwing path has already subtracted the memory of the entry it refuses to replace. */
  lemma AddCoinThrowLosesUsage(s: Stack, o: OutPoint, coin: Coin)
    requires Inv(s) && s.Layer? && !coin.Spent? && !Unspendable(coin.out.script)
    requires o in s.cache && !s.cache[o].coin.Spent?
    ensures AddCoin(s, o, coin, false) == ReplacesUnspent(s.(usage := Total(s.cache - {o})))
    ensures Inv(AddCoin(s, o, coin, false).stack) <==> Memory(s.cache[o].coin) == 0
  {
    TotalSplit(s.cache, o);
  }

  /** A coin added over an existing one without leave to overwrite comes back after it is spent. */
  lemma MisusedAddResurrects(o: OutPoint, existing: Coin, coin: Coin)
    requires !existing.Spent? && !coin.Spent? && !Unspendable(coin.out.script)
    ensures var s := Layer(map[], 0, Database(map[o := existing]));
            var t := AddCoin(s, o, coin, false);
            && Inv(s) && t.Added?
            && View(t.stack) == map[o := coin]
            && View(Spend(t.stack, o).0) == map[o := existing]
  {
    var s := Layer(map[], 0, Database(map[o := existing]));
    var t := AddCoin(s, o, coin, false).stack;
    assert t.cache[o] == Entry(coin, true, true);
    var u := Spend(t, o).0;
    assert u.cache == map[];
  }

  /** Spend a cached coin: a FRESH entry is erased, any other becomes spent and DIRTY. */
  function SpendCached(s: Stack, o: OutPoint): Stack
    requires s.Layer? && o in s.cache
  {
    var e := s.cache[o];
    var usage := s.usage - Memory(e.coin);
    if e.isFresh then Layer(s.cache - {o}, usage, s.below)
    else Layer(s.cache[o := Entry(Spent, true, false)], usage, s.below)
  }

  lemma SpendCachedRemoves(s: Stack, o: OutPoint)
    requires Inv(s) && s.Layer? && o in s.cache
    ensures Inv(SpendCached(s, o))
    ensures View(SpendCached(s, o)) == View(s) - {o}
  {
    TotalSplit(s.cache, o);
    TotalInsert(s.cache, o, Entry(Spent, true, false));
    assert Coherent(s.cache[o], o, View(s.below));
    if s.cache[o].isFresh {
      OverlayErase(s.cache, View(s.below), o);
    } else {
      OverlaySpend(s.cache, View(s.below), o, Entry(Spent, true, false));
    }
  }

  /** Spend a coin of the top cache, fetching it first. */
  function Spend(s: Stack, o: OutPoint): (r: (Stack, bool))
    requires s.Layer?
  {
    var (t, found) := Get(s, o);
    if found.None? then (t, false) else (SpendCached(t, o), true)
  }

  lemma SpendRemoves(s: Stack, o: OutPoint)
    requires Inv(s) && s.Layer?
    ensures Inv(Spend(s, o).0) && Spend(s, o).0.Layer?
    ensures View(Spend(s, o).0) == View(s) - {o}
    ensures o in View(s) ==> Spend(s, o).1
  {
    GetKeepsView(s, o);
    var (t, found) := Get(s, o);
    if found.Some? {
      SpendCachedRemoves(t, o);
    }
  }

  // ---------------------------------------------------------------- write-back

  /** What one child entry does to the parent's entry for the same output. */
  function Merge(parent: Option<Entry>, child: Entry): Option<Entry> {
    if !child.isDirty then parent
    else if parent.None? then
      if child.isFresh && child.coin.Spent? then None
      else Some(Entry(child.coin, true, child.isFresh))
    else if parent.value.isFresh && child.coin.Spent? then None
    else Some(Entry(child.coin, true, parent.value.isFresh))
  }

  function Lookup(c: Cache, o: OutPoint): Option<Entry> {
    if o in c then Some(c[o]) else None
  }

  /** The parent's entry for `o` once the child's entry, if there is one, has been written. */
  function Written(parent: Cache, child: Cache, o: OutPoint): Option<Entry> {
    if o in child then Merge(Lookup(parent, o), child[o]) else Lookup(parent, o)
  }

  function MergeAll(parent: Cache, child: Cache): Cache {
    map o | o in parent.Keys + child.Keys && Written(parent, child, o).Some? ::
      Written(parent, child, o).value
  }

  /** The "FRESH flag misapplied" condition. */
  predicate Misapplied(parent: Cache, child: Cache) {
    exists o :: o in child && MisappliedAt(parent, child, o)
  }

  predicate MisappliedAt(parent: Cache, child: Cache, o: OutPoint)
    requires o in child
  {
    child[o].isDirty && child[o].isFresh && o in parent && !parent[o].coin.Spent?
  }

  function WriteDatabase(coins: map<OutPoint, Coin>, child: Cache): map<OutPoint, Coin> {
    map o | o in coins.Keys + child.Keys
            && (if o in child && child[o].isDirty then !child[o].coin.Spent? else o in coins) ::
      if o in child && child[o].isDirty then child[o].coin else coins[o]
  }

  datatype WriteResult = Wrote(stack: Stack) | FreshMisapplied

  ghost function BatchWrite(s: Stack, child: Cache): (r: WriteResult) {
    match s
    case Database(coins) => Wrote(Database(WriteDatabase(coins, child)))
    case Layer(cache, usage, below) =>
      if Misapplied(cache, child) then FreshMisapplied
      else
        var merged := MergeAll(cache, child);
        Wrote(Layer(merged, usage + Total(merged) - Total(cache), below))
  }

  /** The part of a child cache written so far, when the entries of `done` have been visited. */
  function Restrict(child: Cache, done: set<OutPoint>): Cache {
    map o | o in child && o in done :: child[o]
  }

  function Put(c: Cache, o: OutPoint, e: Option<Entry>): Cache {
    if e.Some? then c[o := e.value] else c - {o}
  }

  /** Visiting one more child entry, in any order, touches only the parent's entry for it. */
  lemma MergeStep(parent: Cache, child: Cache, done: set<OutPoint>, o: OutPoint)
    requires o in child && o !in done
    ensures Lookup(MergeAll(parent, Restrict(child, done)), o) == Lookup(parent, o)
    ensures MergeAll(parent, Restrict(child, done + {o}))
         == Put(MergeAll(parent, Restrict(child, done)), o, Merge(Lookup(parent, o), child[o]))
  {
    var before, after := MergeAll(parent, Restrict(child, done)),
                         MergeAll(parent, Restrict(child, done + {o}));
    forall p
      ensures Lookup(before, p) == Written(parent, Restrict(child, done), p)
      ensures Lookup(after, p) == Written(parent, Restrict(child, done + {o}), p)
    {
    }
    var want := Put(before, o, Merge(Lookup(parent, o), child[o]));
    forall p
      ensures Lookup(after, p) == Lookup(want, p)
    {
      if p != o {
        assert p in Restrict(child, done + {o}) <==> p in Restrict(child, done);
      }
    }
    SameLookups(after, want);
  }

  lemma SameLookups(a: Cache, b: Cache)
    requires forall p :: Lookup(a, p) == Lookup(b, p)
    ensures a == b
  {
    forall p
      ensures p in a <==> p in b
      ensures p in a ==> a[p] == b[p]
    {
      assert Lookup(a, p) == Lookup(b, p);
    }
  }

  lemma PutTotal(c: Cache, o: OutPoint, e: Option<Entry>)
    ensures Total(Put(c, o, e)) + (if o in c then Memory(c[o].coin) else 0)
         == Total(c) + (if e.Some? then Memory(e.value.coin) else 0)
  {
    if o in c { TotalSplit(c, o); } else { assert c - {o} == c; }
    if e.Some? { TotalInsert(c, o, e.value); }
  }

  ghost predicate CoherentCache(child: Cache, v: map<OutPoint, Coin>) {
    forall o :: o in child ==> Coherent(child[o], o, v)
  }

  lemma NeverMisapplied(s: Stack, child: Cache)
    requires Inv(s) && s.Layer? && CoherentCache(child, View(s))
    ensures !Misapplied(s.cache, child)
  {
    forall o | o in child
      ensures !MisappliedAt(s.cache, child, o)
    {
      OverlayAt(s.cache, View(s.below), o);
      assert Coherent(child[o], o, View(s));
    }
  }

  /** One merged entry shows the child's coin and keeps its promises about the grandparent. */
  lemma MergeOne(s: Stack, child: Cache, o: OutPoint)
    requires Inv(s) && s.Layer? && CoherentCache(child, View(s))
    ensures var w := Written(s.cache, child, o);
            && (w.Some? ==> Coherent(w.value, o, View(s.below)))
            && (o in Overlay(child, View(s)) <==>
                 if w.Some? then !w.value.coin.Spent? else o in View(s.below))
            && (o in Overlay(child, View(s)) ==>
                 Overlay(child, View(s))[o] == if w.Some? then w.value.coin else View(s.below)[o])
  {
    ViewHoldsUnspent(s);
    ViewHoldsUnspent(s.below);
    if o in child { assert Coherent(child[o], o, View(s)); }
    if o in s.cache { assert Coherent(s.cache[o], o, View(s.below)); }
    OverlayAt(s.cache, View(s.below), o);
    OverlayAt(child, View(s), o);
  }

  /** Writing a coherent child back makes the parent's view the child's view, raises no error and
      keeps the parent coherent with what is below it. */
  lemma {:induction false} BatchWriteCommits(s: Stack, child: Cache)
    requires Inv(s) && CoherentCache(child, View(s))
    ensures BatchWrite(s, child).Wrote?
    ensures Inv(BatchWrite(s, child).stack)
    ensures View(BatchWrite(s, child).stack) == Overlay(child, View(s))
  {
    match s
    case Database(coins) =>
      forall o | o in child ensures Coherent(child[o], o, coins) {}
      assert WriteDatabase(coins, child) == Overlay(child, coins);
    case Layer(cache, usage, below) =>
      NeverMisapplied(s, child);
      var t := BatchWrite(s, child).stack;
      forall o
        ensures o in t.cache ==> Coherent(t.cache[o], o, View(below))
        ensures o in View(t) <==> o in Overlay(child, View(s))
        ensures o in View(t) ==> View(t)[o] == Overlay(child, View(s))[o]
      {
        MergeOne(s, child, o);
        OverlayAt(t.cache, View(below), o);
        assert o in t.cache <==> Written(cache, child, o).Some?;
      }
      assert View(t) == Overlay(child, View(s));
  }

  datatype FlushResult = Flushed(stack: Stack) | FlushFailed

  ghost function Flush(s: Stack): (r: FlushResult)
    requires s.Layer?
  {
    match BatchWrite(s.below, s.cache)
    case Wrote(below) => Flushed(Layer(map[], 0, below))
    case FreshMisapplied => FlushFailed
  }

  lemma FlushKeepsView(s: Stack)
    requires Inv(s) && s.Layer?
    ensures Flush(s).Flushed? && Flush(s).stack.Layer?
    ensures Inv(Flush(s).stack)
    ensures View(Flush(s).stack) == View(s)
    ensures View(Flush(s).stack.below) == View(s)
  {
    BatchWriteCommits(s.below, s.cache);
    var t := Flush(s).stack;
    assert View(t) == View(t.below);
  }

  // ---------------------------------------------------------------- any level, any run

  function Depth(s: Stack): nat {
    if s.Layer? then 1 + Depth(s.below) else 0
  }

  /** The stack starting `k` levels under the top. */
  function Sub(s: Stack, k: nat): Stack
    requires k <= Depth(s)
  {
    if k == 0 then s else Sub(s.below, k - 1)
  }

  function Replace(s: Stack, k: nat, t: Stack): Stack
    requires k <= Depth(s)
  {
    if k == 0 then t else s.(below := Replace(s.below, k - 1, t))
  }

  /** Whatever happens at some level, the levels above notice only a change of its view. */
  lemma {:induction false} ReplaceKeepsView(s: Stack, k: nat, t: Stack)
    requires k <= Depth(s) && Inv(s) && Inv(t) && View(t) == View(Sub(s, k))
    ensures Inv(Sub(s, k))
    ensures Inv(Replace(s, k, t)) && View(Replace(s, k, t)) == View(s)
    ensures k > 0 || t.Layer? ==> (Replace(s, k, t).Layer? <==> k > 0 || t.Layer?)
  {
    if k > 0 {
      ReplaceKeepsView(s.below, k - 1, t);
    }
  }

  lemma {:induction false} SubInv(s: Stack, k: nat)
    requires k <= Depth(s) && Inv(s)
    ensures Inv(Sub(s, k))
    ensures k < Depth(s) ==> Sub(s, k).Layer?
  {
    if k > 0 { SubInv(s.below, k - 1); }
  }

  /** What callers do: reads, evictions and flushes at any level, a new cache on top, and
      additions and spends on the top cache. */
  datatype Op =
    | OpGet(level: nat, o: OutPoint)
    | OpUncache(level: nat, o: OutPoint)
    | OpFlush(level: nat)
    | OpPush
    | OpAdd(o: OutPoint, coin: Coin, overwrite: bool)
    | OpSpend(o: OutPoint)

  datatype Outcome = Ran(stack: Stack) | Threw

  ghost function Exec(s: Stack, op: Op): (r: Outcome)
    requires s.Layer? && (op.OpAdd? ==> !op.coin.Spent?)
  {
    match op
    case OpGet(k, o) =>
      if k <= Depth(s) then Ran(Replace(s, k, Get(Sub(s, k), o).0)) else Ran(s)
    case OpUncache(k, o) =>
      if k <= Depth(s) then Ran(Replace(s, k, Uncache(Sub(s, k), o))) else Ran(s)
    case OpFlush(k) =>
      if k <= Depth(s) && Sub(s, k).Layer? then
        match Flush(Sub(s, k))
        case Flushed(t) => Ran(Replace(s, k, t))
        case FlushFailed => Threw
      else Ran(s)
    case OpPush => Ran(Layer(map[], 0, s))
    case OpAdd(o, coin, overwrite) =>
      (match AddCoin(s, o, coin, overwrite)
       case Added(t) => Ran(t)
       case ReplacesUnspent(_) => Threw)
    case OpSpend(o) => Ran(Spend(s, o).0)
  }

  /** The same operations on one plain map. */
  function ExecPlain(m: map<OutPoint, Coin>, op: Op): map<OutPoint, Coin> {
    match op
    case OpAdd(o, coin, _) =>
      if !coin.Spent? && Unspendable(coin.out.script) then m else m[o := coin]
    case OpSpend(o) => m - {o}
    case _ => m
  }

  /** AddCoin's side of the bargain, stated on the plain map. */
  predicate Allowed(m: map<OutPoint, Coin>, op: Op) {
    op.OpAdd? ==> !op.coin.Spent? && (op.overwrite || op.o !in m)
  }

  lemma ExecRefines(s: Stack, op: Op)
    requires Inv(s) && s.Layer? && Allowed(View(s), op)
    ensures Exec(s, op).Ran? && Exec(s, op).stack.Layer?
    ensures Inv(Exec(s, op).stack)
    ensures View(Exec(s, op).stack) == ExecPlain(View(s), op)
  {
    match op
    case OpGet(k, o) =>
      if k <= Depth(s) {
        SubInv(s, k);
        GetKeepsView(Sub(s, k), o);
        ReplaceKeepsView(s, k, Get(Sub(s, k), o).0);
      }
    case OpUncache(k, o) =>
      if k <= Depth(s) {
        SubInv(s, k);
        UncacheKeepsView(Sub(s, k), o);
        ReplaceKeepsView(s, k, Uncache(Sub(s, k), o));
      }
    case OpFlush(k) =>
      if k <= Depth(s) && Sub(s, k).Layer? {
        SubInv(s, k);
        FlushKeepsView(Sub(s, k));
        ReplaceKeepsView(s, k, Flush(Sub(s, k)).stack);
      }
    case OpPush =>
      assert View(Layer(map[], 0, s)) == View(s);
    case OpAdd(o, coin, overwrite) =>
      AddCoinIff(s, o, coin, overwrite);
    case OpSpend(o) =>
      SpendRemoves(s, o);
  }

  ghost function Run(s: Stack, ops: seq<Op>): (r: Outcome)
    requires s.Layer?
    decreases |ops|
  {
    if ops == [] then Ran(s)
    else if ops[0].OpAdd? && ops[0].coin.Spent? then Threw
    else
      match Exec(s, ops[0])
      case Threw => Threw
      case Ran(t) => if t.Layer? then Run(t, ops[1..]) else Threw
  }

  function RunPlain(m: map<OutPoint, Coin>, ops: seq<Op>): map<OutPoint, Coin>
    decreases |ops|
  {
    if ops == [] then m else RunPlain(ExecPlain(m, ops[0]), ops[1..])
  }

  predicate AllAllowed(m: map<OutPoint, Coin>, ops: seq<Op>)
    decreases |ops|
  {
    ops == [] || (Allowed(m, ops[0]) && AllAllowed(ExecPlain(m, ops[0]), ops[1..]))
  }

  /** Any stack of caches behaves as one plain map over every run whose additions are allowed on
      that map; nothing is ever thrown on the way. */
  lemma {:induction false} RunRefines(s: Stack, ops: seq<Op>)
    requires Inv(s) && s.Layer? && AllAllowed(View(s), ops)
    ensures Run(s, ops).Ran?
    ensures Inv(Run(s, ops).stack)
    ensures View(Run(s, ops).stack) == RunPlain(View(s), ops)
    decreases |ops|
  {
    if ops != [] {
      ExecRefines(s, ops[0]);
      RunRefines(Exec(s, ops[0]).stack, ops[1..]);
    }
  }
}
