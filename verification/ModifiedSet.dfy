/** The side table of block assembly: pool entries whose cached package figures have been lowered
    because some of their ancestors are already in the block. */
module ModifiedSet {
  import opened MempoolGraph

  type Modified = map<Tx, Figures>

  /** What an entry starts from when its ancestors in `added` are subtracted. */
  function Base(pool: Pool, mod: Modified, t: Tx): Figures
    requires t in pool.cached
  {
    if t in mod then mod[t] else pool.cached[t]
  }

  /** The ancestors of `t` among those added. */
  function Included(pool: Pool, added: set<Tx>, t: Tx): set<Tx>
    requires t in pool.ancestors
  {
    added * pool.ancestors[t]
  }

  /** The table after the descendants of `added`, other than those in `skip`, have been lowered for it. */
  ghost predicate Lowered(pool: Pool, mod: Modified, skip: set<Tx>, added: set<Tx>, mod': Modified)
    requires Shaped(pool) && added <= pool.txs
  {
    && mod'.Keys <= pool.txs
    && (forall d :: d in pool.txs ==> (d in mod' <==> d in mod || (d !in skip && Included(pool, added, d) != {})))
    && forall d :: d in mod' ==> LoweredEntry(pool, mod, added, d, mod'[d])
  }

  ghost predicate LoweredEntry(pool: Pool, mod: Modified, added: set<Tx>, d: Tx, e: Figures)
    requires Shaped(pool) && added <= pool.txs && d in pool.txs
  {
    && e.size == Base(pool, mod, d).size - Total(pool.size, Included(pool, added, d))
    && e.sigOps == Base(pool, mod, d).sigOps - Total(pool.sigOps, Included(pool, added, d))
    && (d in mod || Unadjusted(pool) ==> e.fees == Base(pool, mod, d).fees - Total(pool.fee, Included(pool, added, d)))
  }

  // ---------------------------------------------------------------- bounds

  /** No entry of the table is in the block, and its figures cover all that is missing. */
  ghost predicate Covers(pool: Pool, block: set<Tx>, mod: Modified)
    requires Shaped(pool)
  {
    && mod.Keys <= pool.txs && mod.Keys !! block
    && forall d :: d in mod ==> CoversEntry(pool, block, d, mod[d])
  }

  ghost predicate CoversEntry(pool: Pool, block: set<Tx>, d: Tx, e: Figures)
    requires Shaped(pool) && d in pool.txs
  {
    && e.size >= Total(pool.size, Missing(pool, block, d))
    && e.sigOps >= Total(pool.sigOps, Missing(pool, block, d))
  }

  /** Entries that never failed are exact, and everything lowered is in the table. */
  ghost predicate Exact(pool: Pool, block: set<Tx>, mod: Modified, failed: set<Tx>)
    requires Shaped(pool) && mod.Keys <= pool.txs
  {
    && (forall d :: d in mod && d !in failed ==> ExactEntry(pool, block, d, mod[d]))
    && forall d :: d in pool.txs && d !in block && d !in failed && Included(pool, block, d) != {} ==> d in mod
  }

  ghost predicate ExactEntry(pool: Pool, block: set<Tx>, d: Tx, e: Figures)
    requires Shaped(pool) && d in pool.txs
  {
    && e.size == Total(pool.size, Missing(pool, block, d))
    && e.sigOps == Total(pool.sigOps, Missing(pool, block, d))
    && (Unadjusted(pool) ==> e.fees == Total(pool.modFee, Missing(pool, block, d)))
  }

  lemma MissingShrinks(pool: Pool, f: map<Tx, int>, block: set<Tx>, added: set<Tx>, d: Tx)
    requires Shaped(pool) && f.Keys == pool.txs && d in pool.txs && d !in added && added !! block
    ensures Total(f, Missing(pool, block + added, d)) ==
            Total(f, Missing(pool, block, d)) - Total(f, Included(pool, added, d))
  {
    var left, gone := Missing(pool, block + added, d), Included(pool, added, d);
    assert left + gone == Missing(pool, block, d);
    TotalUnion(f, left, gone);
  }

  lemma CachedCovers(pool: Pool, block: set<Tx>, d: Tx)
    requires Shaped(pool) && Figured(pool) && d in pool.txs
    ensures CoversEntry(pool, block, d, pool.cached[d])
    ensures Included(pool, block, d) == {} && d !in block ==> ExactEntry(pool, block, d, pool.cached[d])
  {
    var missing, there := Missing(pool, block, d), Family(pool, d) * block;
    assert missing + there == Family(pool, d);
    TotalUnion(pool.size, missing, there);
    TotalUnion(pool.sigOps, missing, there);
    TotalUnion(pool.modFee, missing, there);
    TotalNonnegative(pool.size, there);
    TotalNonnegative(pool.sigOps, there);
    if Included(pool, block, d) == {} && d !in block {
      assert there == Included(pool, block, d);
    }
  }

  /** Lowering the table for what was added keeps its bounds: a package's size is never
      under-estimated. */
  lemma LoweredCovers(pool: Pool, block: set<Tx>, added: set<Tx>, mod: Modified, mod': Modified)
    requires Shaped(pool) && Figured(pool) && added <= pool.txs && added !! block && Closed(pool, block)
    requires Covers(pool, block, mod) && mod.Keys !! added && Lowered(pool, mod, added, added, mod')
    ensures Covers(pool, block + added, mod')
  {
    hide Figured, CoversEntry, LoweredEntry;
    forall d | d in mod' ensures d !in block + added && CoversEntry(pool, block + added, d, mod'[d]) {
      OutOfBlock(pool, block, added, mod, mod', d);
      LoweredCoversEntry(pool, block, added, mod, d, mod'[d]);
    }
  }

  lemma OutOfBlock(pool: Pool, block: set<Tx>, added: set<Tx>, mod: Modified, mod': Modified, d: Tx)
    requires Shaped(pool) && added <= pool.txs && added !! block && Closed(pool, block)
    requires mod.Keys !! block && mod.Keys !! added && Lowered(pool, mod, added, added, mod') && d in mod'
    ensures d !in block && d !in added
  {
    if d !in mod {
      var it :| it in Included(pool, added, d);
      assert it in pool.ancestors[d] && it !in block;
    }
  }

  lemma LoweredCoversEntry(pool: Pool, block: set<Tx>, added: set<Tx>, mod: Modified, d: Tx, e: Figures)
    requires Shaped(pool) && Figured(pool) && added <= pool.txs && added !! block && d in pool.txs && d !in added
    requires d in mod ==> CoversEntry(pool, block, d, mod[d])
    requires LoweredEntry(pool, mod, added, d, e)
    ensures CoversEntry(pool, block + added, d, e)
  {
    CachedCovers(pool, block, d);
    MissingShrinks(pool, pool.size, block, added, d);
    MissingShrinks(pool, pool.sigOps, block, added, d);
  }

  lemma LoweredExactEntry(pool: Pool, block: set<Tx>, added: set<Tx>, mod: Modified, d: Tx, e: Figures)
    requires Shaped(pool) && Figured(pool) && added <= pool.txs && added !! block && d in pool.txs && d !in added
    requires d !in block
    requires if d in mod then ExactEntry(pool, block, d, mod[d]) else Included(pool, block, d) == {}
    requires LoweredEntry(pool, mod, added, d, e)
    ensures ExactEntry(pool, block + added, d, e)
  {
    hide Total, Missing, Included;
    CachedCovers(pool, block, d);
    MissingShrinks(pool, pool.size, block, added, d);
    MissingShrinks(pool, pool.sigOps, block, added, d);
    MissingShrinks(pool, pool.modFee, block, added, d);
  }

  /** Entries are created from modified fees but lowered by base fees, so an entry with the right
      fees keeps them right exactly if the two agree in total over the ancestors included. */
  lemma LoweredFees(pool: Pool, block: set<Tx>, added: set<Tx>, mod: Modified, d: Tx, e: Figures)
    requires Shaped(pool) && added <= pool.txs && added !! block && d in pool.txs && d !in added && d in mod
    requires mod[d].fees == Total(pool.modFee, Missing(pool, block, d)) && LoweredEntry(pool, mod, added, d, e)
    ensures e.fees == Total(pool.modFee, Missing(pool, block + added, d)) <==>
      Total(pool.fee, Included(pool, added, d)) == Total(pool.modFee, Included(pool, added, d))
  {
    MissingShrinks(pool, pool.modFee, block, added, d);
  }

  lemma LoweredExact(pool: Pool, block: set<Tx>, added: set<Tx>, mod: Modified, failed: set<Tx>, mod': Modified)
    requires Shaped(pool) && Figured(pool) && added <= pool.txs && added !! block && Closed(pool, block)
    requires mod.Keys <= pool.txs && mod.Keys !! block && mod.Keys !! added
    requires Exact(pool, block, mod, failed) && Lowered(pool, mod, added, added, mod')
    ensures Exact(pool, block + added, mod', failed)
  {
    hide Figured, ExactEntry, LoweredEntry;
    forall d | d in mod' && d !in failed ensures ExactEntry(pool, block + added, d, mod'[d]) {
      OutOfBlock(pool, block, added, mod, mod', d);
      LoweredExactEntry(pool, block, added, mod, d, mod'[d]);
    }
    LoweredKeepsAll(pool, block, added, mod, failed, mod');
  }

  lemma LoweredKeepsAll(pool: Pool, block: set<Tx>, added: set<Tx>, mod: Modified, failed: set<Tx>, mod': Modified)
    requires Shaped(pool) && added <= pool.txs && mod.Keys <= pool.txs
    requires Exact(pool, block, mod, failed) && Lowered(pool, mod, added, added, mod')
    ensures forall d ::
      d in pool.txs && d !in block + added && d !in failed && Included(pool, block + added, d) != {} ==> d in mod'
  {
    hide LoweredEntry, ExactEntry;
    forall d | d in pool.txs && d !in block + added && d !in failed && Included(pool, block + added, d) != {}
      ensures d in mod'
    {
      assert Included(pool, block + added, d) == Included(pool, block, d) + Included(pool, added, d);
    }
  }

  function Without(mod: Modified, gone: set<Tx>): Modified {
    map d | d in mod && d !in gone :: mod[d]
  }

  lemma ErasedKeeps(pool: Pool, block: set<Tx>, mod: Modified, failed: set<Tx>, gone: set<Tx>)
    requires Shaped(pool) && Covers(pool, block, mod) && Exact(pool, block, mod, failed)
    ensures Covers(pool, block, Without(mod, gone)) && Exact(pool, block, Without(mod, gone), failed + gone)
  {
    hide CoversEntry, ExactEntry;
  }

  /** A package enters the block: its entries leave the table, and its descendants are lowered. */
  lemma PackageKeeps(pool: Pool, block: set<Tx>, added: set<Tx>, mod: Modified, failed: set<Tx>, mod': Modified)
    requires Shaped(pool) && Figured(pool) && added <= pool.txs && added !! block && Closed(pool, block)
    requires Covers(pool, block, mod) && Exact(pool, block, mod, failed)
    requires Lowered(pool, Without(mod, added), added, added, mod')
    ensures Covers(pool, block + added, mod') && Exact(pool, block + added, mod', failed)
  {
    hide Figured, CoversEntry, ExactEntry, Lowered, Closed, Included;
    ErasedKeeps(pool, block, mod, failed, added);
    LoweredCovers(pool, block, added, Without(mod, added), mod');
    LoweredExact(pool, block, added, Without(mod, added), failed + added, mod');
  }

  /** The first round: everything in the block was added before the table existed. */
  lemma FirstRoundKeeps(pool: Pool, block: set<Tx>, mod: Modified)
    requires Shaped(pool) && Figured(pool) && block <= pool.txs && Lowered(pool, map[], block, block, mod)
    ensures Covers(pool, block, mod) && Exact(pool, block, mod, {})
  {
    hide Figured, CoversEntry, ExactEntry, Lowered;
    forall d | d in pool.txs ensures Included(pool, {}, d) == {} { }
    assert {} + block == block;
    LoweredCovers(pool, {}, block, map[], mod);
    LoweredExact(pool, {}, block, map[], {}, mod);
  }

  lemma CoversPositive(pool: Pool, block: set<Tx>, mod: Modified)
    requires Shaped(pool) && Figured(pool) && Covers(pool, block, mod)
    ensures forall d :: d in mod ==> mod[d].size > 0
  {
    hide CachedRight;
    forall d | d in mod ensures mod[d].size > 0 {
      var rest := Missing(pool, block, d) - {d};
      assert rest + {d} == Missing(pool, block, d);
      TotalAdd(pool.size, rest, d);
      TotalNonnegative(pool.size, rest);
    }
  }

  // ---------------------------------------------------------------- updating in place

  /** One more ancestor included: what becomes of the figures of a descendant. */
  lemma LowerOnce(pool: Pool, mod: Modified, done: set<Tx>, it: Tx, d: Tx)
    requires Shaped(pool) && done + {it} <= pool.txs && it !in done && d in pool.txs && it in pool.ancestors[d]
    ensures Included(pool, done + {it}, d) == Included(pool, done, d) + {it}
    ensures Total(pool.size, Included(pool, done + {it}, d)) ==
      Total(pool.size, Included(pool, done, d)) + pool.size[it]
    ensures Total(pool.sigOps, Included(pool, done + {it}, d)) ==
      Total(pool.sigOps, Included(pool, done, d)) + pool.sigOps[it]
    ensures Total(pool.fee, Included(pool, done + {it}, d)) == Total(pool.fee, Included(pool, done, d)) + pool.fee[it]
  {
    assert Included(pool, done + {it}, d) == Included(pool, done, d) + {it};
    TotalAdd(pool.size, Included(pool, done, d), it);
    TotalAdd(pool.sigOps, Included(pool, done, d), it);
    TotalAdd(pool.fee, Included(pool, done, d), it);
  }

  /** Halfway: the descendants in `seen` are lowered for `it` as well as for `done`. */
  ghost predicate LoweredMidway(pool: Pool, mod: Modified, skip: set<Tx>, done: set<Tx>, it: Tx, seen: set<Tx>,
                                mod': Modified)
    requires Shaped(pool) && done + {it} <= pool.txs
  {
    && mod'.Keys <= pool.txs
    && (forall d :: d in pool.txs ==>
         (d in mod' <==> d in mod || (d !in skip && Included(pool, Step(done, it, seen, d), d) != {})))
    && forall d :: d in mod' ==> LoweredEntry(pool, mod, Step(done, it, seen, d), d, mod'[d])
  }

  function Step(done: set<Tx>, it: Tx, seen: set<Tx>, d: Tx): set<Tx> {
    if d in seen then done + {it} else done
  }

  /** Lowers one descendant, creating its entry from the cached figures if need be. */
  method LowerDescendant(pool: Pool, mapModifiedTx: Modified, it: Tx, desc: Tx) returns (mod': Modified)
    requires Shaped(pool) && it in pool.txs && desc in pool.txs
    ensures LoweredOne(pool, mapModifiedTx, it, desc, mod')
  {
    if desc !in mapModifiedTx {
      var e := pool.cached[desc];
      mod' := mapModifiedTx[desc := Figures(e.size - pool.size[it], e.fees - pool.modFee[it],
                                            e.sigOps - pool.sigOps[it])];
    } else {
      var e := mapModifiedTx[desc];
      mod' := mapModifiedTx[desc := Figures(e.size - pool.size[it], e.fees - pool.fee[it], e.sigOps - pool.sigOps[it])];
    }
  }

  /** What lowering `desc` for `it` does to the table. */
  predicate LoweredOne(pool: Pool, mod: Modified, it: Tx, desc: Tx, mod': Modified)
    requires Shaped(pool) && it in pool.txs && desc in pool.txs
  {
    && mod'.Keys == mod.Keys + {desc}
    && (forall d :: d in mod && d != desc ==> mod'[d] == mod[d])
    && mod'[desc].size == Base(pool, mod, desc).size - pool.size[it]
    && mod'[desc].sigOps == Base(pool, mod, desc).sigOps - pool.sigOps[it]
    && mod'[desc].fees == Base(pool, mod, desc).fees - if desc in mod then pool.fee[it] else pool.modFee[it]
  }

  lemma LowerStepEntry(pool: Pool, mod0: Modified, skip: set<Tx>, done: set<Tx>, it: Tx, mod: Modified, desc: Tx,
                       mod': Modified)
    requires Shaped(pool) && done + {it} <= pool.txs && it !in done
    requires desc in pool.txs && desc !in skip && it in pool.ancestors[desc]
    requires desc in mod <==> desc in mod0 || Included(pool, done, desc) != {}
    requires desc in mod ==> LoweredEntry(pool, mod0, done, desc, mod[desc])
    requires LoweredOne(pool, mod, it, desc, mod')
    ensures LoweredEntry(pool, mod0, done + {it}, desc, mod'[desc])
  {
    LowerOnce(pool, mod0, done, it, desc);
    if desc !in mod {
      assert Included(pool, done, desc) == {};
    }
  }

  lemma LowerStep(pool: Pool, mod0: Modified, skip: set<Tx>, done: set<Tx>, it: Tx, seen: set<Tx>, mod: Modified,
                  desc: Tx, mod': Modified)
    requires Shaped(pool) && done + {it} <= pool.txs && it !in done && mod0.Keys !! skip
    requires LoweredMidway(pool, mod0, skip, done, it, seen, mod)
    requires desc in pool.txs && desc !in seen && desc !in skip && it in pool.ancestors[desc]
    requires LoweredOne(pool, mod, it, desc, mod')
    ensures LoweredMidway(pool, mod0, skip, done, it, seen + {desc}, mod')
  {
    hide LoweredEntry, Shaped;
    LowerStepEntry(pool, mod0, skip, done, it, mod, desc, mod');
    forall d | d in mod' ensures LoweredEntry(pool, mod0, Step(done, it, seen + {desc}, d), d, mod'[d]) {
      if d != desc { assert LoweredEntry(pool, mod0, Step(done, it, seen, d), d, mod[d]); }
    }
    LowerStepKeys(pool, mod0, skip, done, it, seen, mod, desc, mod');
  }

  lemma LowerStepKeys(pool: Pool, mod0: Modified, skip: set<Tx>, done: set<Tx>, it: Tx, seen: set<Tx>, mod: Modified,
                      desc: Tx, mod': Modified)
    requires Shaped(pool) && done + {it} <= pool.txs
    requires LoweredMidway(pool, mod0, skip, done, it, seen, mod)
    requires desc in pool.txs && desc !in seen && desc !in skip && it in pool.ancestors[desc]
    requires mod'.Keys == mod.Keys + {desc}
    ensures forall d :: d in pool.txs ==>
      (d in mod' <==> d in mod0 || (d !in skip && Included(pool, Step(done, it, seen + {desc}, d), d) != {}))
  {
    hide LoweredEntry;
    assert it in Included(pool, done + {it}, desc);
    forall d | d in pool.txs
      ensures d in mod' <==> d in mod0 || (d !in skip && Included(pool, Step(done, it, seen + {desc}, d), d) != {})
    {
      if d != desc { assert Step(done, it, seen + {desc}, d) == Step(done, it, seen, d); }
    }
  }

  lemma LowerStart(pool: Pool, mod0: Modified, skip: set<Tx>, done: set<Tx>, it: Tx, mod: Modified)
    requires Shaped(pool) && done + {it} <= pool.txs && Lowered(pool, mod0, skip, done, mod)
    ensures LoweredMidway(pool, mod0, skip, done, it, {}, mod)
  {
    hide LoweredEntry;
  }

  lemma LowerDone(pool: Pool, mod0: Modified, skip: set<Tx>, done: set<Tx>, it: Tx, mod: Modified)
    requires Shaped(pool) && done + {it} <= pool.txs && it in skip && it !in done && mod0.Keys !! skip
    requires LoweredMidway(pool, mod0, skip, done, it, Descendants(pool, it) - skip, mod)
    ensures Lowered(pool, mod0, skip, done + {it}, mod)
  {
    hide LoweredEntry;
    var seen := Descendants(pool, it) - skip;
    forall d | d in pool.txs && d !in skip && d !in seen
      ensures Included(pool, done + {it}, d) == Included(pool, done, d)
    {
    }
    forall d | d in mod ensures LoweredEntry(pool, mod0, done + {it}, d, mod[d]) {
      assert LoweredEntry(pool, mod0, Step(done, it, seen, d), d, mod[d]);
      if d !in seen {
        assert d !in skip;
        LoweredSame(pool, mod0, done, done + {it}, d, mod[d]);
      }
    }
  }

  lemma LoweredSame(pool: Pool, mod: Modified, a: set<Tx>, b: set<Tx>, d: Tx, e: Figures)
    requires Shaped(pool) && a <= pool.txs && b <= pool.txs && d in pool.txs
    requires Included(pool, a, d) == Included(pool, b, d) && LoweredEntry(pool, mod, a, d, e)
    ensures LoweredEntry(pool, mod, b, d, e)
  {
  }

  /** Lowers every descendant of the transactions added; entries they already had are lowered
      further, others are created. */
  method UpdatePackagesForAdded(pool: Pool, alreadyAdded: set<Tx>, mapModifiedTx: Modified)
    returns (mod: Modified, nDescendantsUpdated: nat)
    requires Shaped(pool) && alreadyAdded <= pool.txs
    requires mapModifiedTx.Keys <= pool.txs && mapModifiedTx.Keys !! alreadyAdded
    ensures Lowered(pool, mapModifiedTx, alreadyAdded, alreadyAdded, mod)
  {
    hide LoweredEntry, Lowered;
    mod := mapModifiedTx;
    nDescendantsUpdated := 0;
    var todo := alreadyAdded;
    ghost var done: set<Tx> := {};
    NothingLowered(pool, mod, alreadyAdded);
    while todo != {}
      invariant todo <= alreadyAdded && done == alreadyAdded - todo
      invariant Lowered(pool, mapModifiedTx, alreadyAdded, done, mod)
      decreases |todo|
    {
      var it :| it in todo;
      mod, nDescendantsUpdated := LowerForOne(pool, mapModifiedTx, alreadyAdded, done, it, mod, nDescendantsUpdated);
      todo := todo - {it};
      assert done + {it} == alreadyAdded - todo;
      done := done + {it};
    }
    assert done == alreadyAdded;
  }

  lemma NothingLowered(pool: Pool, mod: Modified, skip: set<Tx>)
    requires Shaped(pool) && mod.Keys <= pool.txs
    ensures Lowered(pool, mod, skip, {}, mod)
  {
    forall d | d in pool.txs ensures Included(pool, {}, d) == {} {
    }
    assert Total(pool.size, {}) == 0 && Total(pool.sigOps, {}) == 0 && Total(pool.fee, {}) == 0;
  }

  method LowerForOne(pool: Pool, ghost mod0: Modified, alreadyAdded: set<Tx>, ghost done: set<Tx>, it: Tx,
                     mapModifiedTx: Modified, updated: nat)
    returns (mod: Modified, nDescendantsUpdated: nat)
    requires Shaped(pool) && done + {it} <= alreadyAdded <= pool.txs && it !in done && mod0.Keys !! alreadyAdded
    requires Lowered(pool, mod0, alreadyAdded, done, mapModifiedTx)
    ensures Lowered(pool, mod0, alreadyAdded, done + {it}, mod)
  {
    hide LoweredEntry, Lowered, LoweredMidway, LoweredOne;
    mod, nDescendantsUpdated := mapModifiedTx, updated;
    LowerStart(pool, mod0, alreadyAdded, done, it, mod);
    var descendants := Descendants(pool, it) - alreadyAdded;
    ghost var seen: set<Tx> := {};
    var todo := descendants;
    while todo != {}
      invariant todo <= descendants && seen == descendants - todo
      invariant LoweredMidway(pool, mod0, alreadyAdded, done, it, seen, mod)
      decreases |todo|
    {
      var desc :| desc in todo;
      var next := LowerDescendant(pool, mod, it, desc);
      LowerStep(pool, mod0, alreadyAdded, done, it, seen, mod, desc, next);
      mod := next;
      nDescendantsUpdated := nDescendantsUpdated + 1;
      todo := todo - {desc};
      assert seen + {desc} == descendants - todo;
      seen := seen + {desc};
    }
    assert seen == descendants;
    LowerDone(pool, mod0, alreadyAdded, done, it, mod);
  }
}
