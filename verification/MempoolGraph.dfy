/** The memory pool as block assembly sees it: a finite graph of transactions with their parents,
    ancestors, sizes, signature operations and fees. */
module MempoolGraph {

  /** A transaction by its id. */
  type Tx = nat

  /** Package figures: a transaction with the ancestors it still needs. */
  datatype Figures = Figures(size: int, fees: int, sigOps: int)

  /** `cached` holds the figures the pool keeps for each transaction with all its ancestors. */
  datatype Pool = Pool(
    txs: set<Tx>, parents: map<Tx, set<Tx>>, ancestors: map<Tx, set<Tx>>,
    size: map<Tx, int>, sigOps: map<Tx, int>, fee: map<Tx, int>, modFee: map<Tx, int>,
    cached: map<Tx, Figures>)

  predicate Shaped(pool: Pool) {
    && pool.parents.Keys == pool.ancestors.Keys == pool.txs
    && pool.size.Keys == pool.sigOps.Keys == pool.fee.Keys == pool.modFee.Keys == pool.cached.Keys == pool.txs
    && forall t :: t in pool.txs ==> pool.ancestors[t] <= pool.txs
  }

  /** Ancestors include the parents and their ancestors, and never the transaction itself. */
  predicate Related(pool: Pool) {
    && Shaped(pool)
    && (forall t :: t in pool.txs ==> t !in pool.ancestors[t])
    && (forall t :: t in pool.txs ==> pool.parents[t] <= pool.ancestors[t])
    && (forall t, a :: t in pool.txs && a in pool.ancestors[t] ==> pool.ancestors[a] <= pool.ancestors[t])
  }

  /** Every ancestor is reached through a parent. */
  predicate Linked(pool: Pool)
    requires Shaped(pool)
  {
    forall t, a :: t in pool.txs && a in pool.ancestors[t] ==> ViaParent(pool, t, a)
  }

  predicate ViaParent(pool: Pool, t: Tx, a: Tx)
    requires t in pool.parents
  {
    a in pool.parents[t] || exists p :: p in pool.parents[t] && p in pool.ancestors && a in pool.ancestors[p]
  }

  /** Sizes are positive and the cached figures are those of the whole family. */
  ghost predicate Figured(pool: Pool)
    requires Shaped(pool)
  {
    && (forall t :: t in pool.txs ==> pool.size[t] > 0 && pool.sigOps[t] >= 0)
    && forall t :: t in pool.txs ==> CachedRight(pool, t)
  }

  /** No fee has been adjusted by hand. */
  predicate Unadjusted(pool: Pool) { pool.fee == pool.modFee }

  ghost predicate Valid(pool: Pool) { Shaped(pool) && Related(pool) && Linked(pool) && Figured(pool) }

  ghost predicate CachedRight(pool: Pool, t: Tx)
    requires t in pool.cached && t in pool.ancestors
    requires Family(pool, t) <= pool.size.Keys && Family(pool, t) <= pool.modFee.Keys
    requires Family(pool, t) <= pool.sigOps.Keys
  {
    pool.cached[t] == Figures(Total(pool.size, Family(pool, t)), Total(pool.modFee, Family(pool, t)),
                              Total(pool.sigOps, Family(pool, t)))
  }

  /** A transaction with its ancestors. */
  function Family(pool: Pool, t: Tx): set<Tx>
    requires t in pool.ancestors
  {
    pool.ancestors[t] + {t}
  }

  /** A transaction with its descendants. */
  function Descendants(pool: Pool, t: Tx): set<Tx>
    requires pool.ancestors.Keys == pool.txs
  {
    set d | d in pool.txs && (d == t || t in pool.ancestors[d])
  }

  // ---------------------------------------------------------------- sums over sets

  ghost function Total(f: map<Tx, int>, s: set<Tx>): int
    requires s <= f.Keys
  {
    if s == {} then 0
    else
      var t :| t in s;
      f[t] + Total(f, s - {t})
  }

  lemma {:induction false} TotalAdd(f: map<Tx, int>, s: set<Tx>, t: Tx)
    requires s <= f.Keys && t in f && t !in s
    ensures Total(f, s + {t}) == Total(f, s) + f[t]
    decreases |s|
  {
    var s' := s + {t};
    var u :| u in s' && Total(f, s') == f[u] + Total(f, s' - {u});
    if u == t {
      assert s' - {t} == s;
    } else {
      TotalAdd(f, s - {u}, t);
      assert s' - {u} == (s - {u}) + {t};
      TotalAdd(f, s - {u}, u);
      assert (s - {u}) + {u} == s;
    }
  }

  lemma {:induction false} TotalUnion(f: map<Tx, int>, a: set<Tx>, b: set<Tx>)
    requires a <= f.Keys && b <= f.Keys && a !! b
    ensures Total(f, a + b) == Total(f, a) + Total(f, b)
    decreases |b|
  {
    if b == {} {
      assert a + b == a;
    } else {
      var t :| t in b;
      TotalUnion(f, a, b - {t});
      TotalAdd(f, a + (b - {t}), t);
      assert a + (b - {t}) + {t} == a + b;
      TotalAdd(f, b - {t}, t);
      assert b - {t} + {t} == b;
    }
  }

  lemma {:induction false} TotalNonnegative(f: map<Tx, int>, s: set<Tx>)
    requires s <= f.Keys && forall t :: t in s ==> f[t] >= 0
    ensures Total(f, s) >= 0
    decreases |s|
  {
    if s != {} {
      var t :| t in s && Total(f, s) == f[t] + Total(f, s - {t});
      TotalNonnegative(f, s - {t});
    }
  }

  // ---------------------------------------------------------------- packages

  /** What of a transaction's family is not in the block yet. */
  function Missing(pool: Pool, block: set<Tx>, t: Tx): set<Tx>
    requires t in pool.ancestors
  {
    Family(pool, t) - block
  }

  predicate Closed(pool: Pool, block: set<Tx>)
    requires pool.ancestors.Keys == pool.txs
  {
    block <= pool.txs && forall t :: t in block ==> pool.ancestors[t] <= block
  }

  lemma {:induction false} SubsetSize(a: set<Tx>, b: set<Tx>)
    requires a < b
    ensures |a| < |b|
    decreases |a|
  {
    if a != {} {
      var t :| t in a;
      var u :| u in b && u !in a;
      assert u in b - {t} && u !in a - {t};
      SubsetSize(a - {t}, b - {t});
    }
  }

  /** A transaction has fewer ancestors than anything that depends on it. */
  lemma FewerAncestors(pool: Pool, t: Tx, a: Tx)
    requires Related(pool) && t in pool.txs && a in pool.ancestors[t]
    ensures a in pool.txs && |pool.ancestors[a]| < |pool.ancestors[t]|
  {
    assert a !in pool.ancestors[a] && pool.ancestors[a] <= pool.ancestors[t];
    SubsetSize(pool.ancestors[a], pool.ancestors[t]);
  }

  // ---------------------------------------------------------------- order in the block

  function Elems(s: seq<Tx>): set<Tx> { set t | t in s }

  predicate NoRepeats(s: seq<Tx>) {
    forall i, j :: 0 <= i < j < |s| ==> s[i] != s[j]
  }

  /** Every parent in the pool stands before its child. */
  predicate ParentsFirst(pool: Pool, entries: seq<Tx>)
    requires pool.parents.Keys == pool.txs
  {
    forall i :: 0 <= i < |entries| ==>
      entries[i] in pool.txs && forall p :: p in pool.parents[entries[i]] ==> p in entries[..i]
  }

  lemma {:induction false} AncestorsFirst(pool: Pool, entries: seq<Tx>, i: nat)
    requires Related(pool) && Linked(pool) && ParentsFirst(pool, entries) && i < |entries|
    ensures forall a :: a in pool.ancestors[entries[i]] ==> a in entries[..i]
    decreases i
  {
    var t := entries[i];
    forall a | a in pool.ancestors[t] ensures a in entries[..i] {
      assert ViaParent(pool, t, a);
      if a !in pool.parents[t] {
        var p :| p in pool.parents[t] && p in pool.ancestors && a in pool.ancestors[p];
        assert p in entries[..i];
        var j :| 0 <= j < i && entries[j] == p;
        AncestorsFirst(pool, entries, j);
        assert a in entries[..j];
      }
    }
  }

  lemma OrderCloses(pool: Pool, entries: seq<Tx>)
    requires Related(pool) && Linked(pool) && ParentsFirst(pool, entries)
    ensures Closed(pool, Elems(entries))
  {
    forall t | t in Elems(entries) ensures t in pool.txs && pool.ancestors[t] <= Elems(entries) {
      var i :| 0 <= i < |entries| && entries[i] == t;
      AncestorsFirst(pool, entries, i);
    }
  }

  predicate SortedByAncestors(pool: Pool, s: seq<Tx>)
    requires pool.ancestors.Keys == pool.txs
  {
    && (forall i :: 0 <= i < |s| ==> s[i] in pool.txs)
    && forall i, j :: 0 <= i < j < |s| ==> |pool.ancestors[s[i]]| <= |pool.ancestors[s[j]]|
  }

  /** Sorting a package by ancestor count is enough: appended to a closed block, every parent
      still stands before its child. */
  lemma SortedPackageFits(pool: Pool, entries: seq<Tx>, t: Tx, package: seq<Tx>)
    requires Related(pool) && ParentsFirst(pool, entries) && t in pool.txs
    requires Elems(package) == Missing(pool, Elems(entries), t) && SortedByAncestors(pool, package)
    ensures ParentsFirst(pool, entries + package)
  {
    var all := entries + package;
    forall i, p | 0 <= i < |all| && all[i] in pool.txs && p in pool.parents[all[i]]
      ensures p in all[..i]
    {
      if i < |entries| {
        assert all[..i] == entries[..i];
      } else {
        PackageParent(pool, entries, t, package, i - |entries|, p);
        assert all[..i] == entries + package[..i - |entries|];
      }
    }
  }

  lemma PackageParent(pool: Pool, entries: seq<Tx>, t: Tx, package: seq<Tx>, j: nat, p: Tx)
    requires Related(pool) && t in pool.txs && j < |package|
    requires Elems(package) == Missing(pool, Elems(entries), t) && SortedByAncestors(pool, package)
    requires p in pool.parents[package[j]]
    ensures p in entries || p in package[..j]
  {
    var u := package[j];
    assert u in Elems(package);
    assert p in pool.ancestors[u];
    assert u in Family(pool, t) && p in Family(pool, t);
    if p !in entries {
      assert p in Elems(package);
      var k :| 0 <= k < |package| && package[k] == p;
      FewerAncestors(pool, u, p);
    }
  }
}
