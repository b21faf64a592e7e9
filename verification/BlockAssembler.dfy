/** Block assembly: filling a block template from the memory pool, first by priority, then by the
    fee rate of packages of transactions with the ancestors they still need. */
module BlockAssembler {
  import opened MempoolGraph
  import opened ModifiedSet
  import opened PackageSelection
  import opened PrioritySelection

  /** The best entry of the table. */
  method BestModified(mod: Modified) returns (best: Tx)
    requires mod.Keys != {} && PositiveSizes(mod)
    ensures best in mod
    ensures forall d :: d in mod && d != best ==> Better(mod[best], best, mod[d], d)
  {
    best :| best in mod.Keys;
    var todo := mod.Keys - {best};
    while todo != {}
      invariant best in mod && todo <= mod.Keys && best !in todo
      invariant forall d :: d in mod && d !in todo && d != best ==> Better(mod[best], best, mod[d], d)
      decreases |todo|
    {
      var t :| t in todo;
      todo := todo - {t};
      if Better(mod[t], t, mod[best], best) {
        forall d | d in mod && d !in todo && d != t ensures Better(mod[t], t, mod[d], d) {
          if d != best { BetterTransitive(mod[t], t, mod[best], best, mod[d], d); }
        }
        best := t;
      } else {
        BetterTotal(mod[best], best, mod[t], t);
      }
    }
  }

  // ---------------------------------------------------------------- what a template keeps

  /** The counters agree with the transactions taken. */
  ghost predicate Booked(pool: Pool, entries: seq<Tx>, inBlock: set<Tx>, size: int, sigOps: int, count: int, fees: int)
    requires Shaped(pool)
  {
    && NoRepeats(entries) && inBlock == Elems(entries) && inBlock <= pool.txs
    && size == RESERVED_SIZE + Total(pool.size, inBlock)
    && sigOps == RESERVED_SIGOPS + Total(pool.sigOps, inBlock)
    && count == |entries| && fees == Total(pool.fee, inBlock)
  }

  lemma BookOne(pool: Pool, entries: seq<Tx>, inBlock: set<Tx>, size: int, sigOps: int, count: int, fees: int, t: Tx)
    requires Shaped(pool) && Booked(pool, entries, inBlock, size, sigOps, count, fees)
    requires t in pool.txs && t !in inBlock
    ensures Booked(pool, entries + [t], inBlock + {t}, size + pool.size[t], sigOps + pool.sigOps[t], count + 1,
                   fees + pool.fee[t])
  {
    TotalAdd(pool.size, inBlock, t);
    TotalAdd(pool.sigOps, inBlock, t);
    TotalAdd(pool.fee, inBlock, t);
    assert Elems(entries + [t]) == inBlock + {t};
  }

  lemma EmptyBooked(pool: Pool)
    requires Valid(pool)
    ensures Shaped(pool) && Booked(pool, [], {}, RESERVED_SIZE, RESERVED_SIGOPS, 0, 0) && ParentsFirst(pool, [])
  {
    hide Related, Linked, Figured;
    assert Elems([]) == {};
  }

  datatype Fit = TxFits | TxCantFit | BlockFinished

  class Assembler {
    const pool: Pool
    const order: seq<Tx>
    const config: Config

    var entries: seq<Tx>
    var inBlock: set<Tx>
    var nBlockSize: int
    var nBlockSigOps: int
    var nBlockTx: int
    var nFees: int
    var lastFewTxs: int

    /** Counters in step, no repeats, parents first, and under the limits once anything is in. */
    ghost predicate Inv()
      reads this`entries, this`inBlock, this`nBlockSize, this`nBlockSigOps, this`nBlockTx, this`nFees
    {
      && Valid(pool) && Ordered(pool, order) && config.limit >= 1000
      && Booked(pool, entries, inBlock, nBlockSize, nBlockSigOps, nBlockTx, nFees)
      && ParentsFirst(pool, entries)
      && (entries != [] ==> nBlockSize < config.limit && nBlockSigOps < MaxSigOps(config.limit - 1))
    }

    /** The signature operations are strictly below what a block of just this size may hold: the test the
        assembler makes itself.  The network rejects a block only above that number. */
    predicate SigOpsFit()
      reads this`entries, this`nBlockSize, this`nBlockSigOps
    {
      entries != [] ==> nBlockSigOps < MaxSigOps(nBlockSize)
    }

    constructor (pool: Pool, order: seq<Tx>, config: Config)
      requires Valid(pool) && Ordered(pool, order) && config.limit >= 1000
      ensures this.pool == pool && this.order == order && this.config == config
      ensures Inv() && SigOpsFit() && entries == []
    {
      hide Valid, Ordered, Booked;
      this.pool, this.order, this.config := pool, order, config;
      entries, inBlock := [], {};
      nBlockSize, nBlockSigOps, nBlockTx, nFees, lastFewTxs := RESERVED_SIZE, RESERVED_SIGOPS, 0, 0, 0;
      EmptyBooked(pool);
    }

    method ResetBlock()
      requires Valid(pool) && Ordered(pool, order) && config.limit >= 1000
      modifies this
      ensures Inv() && SigOpsFit() && entries == []
    {
      hide Valid, Ordered, Booked;
      entries, inBlock := [], {};
      nBlockSize, nBlockSigOps, nBlockTx, nFees, lastFewTxs := RESERVED_SIZE, RESERVED_SIGOPS, 0, 0, 0;
      EmptyBooked(pool);
    }

    /** Whether a transaction has a parent that is not in the block. */
    method IsStillDependent(iter: Tx) returns (dependent: bool)
      requires Shaped(pool) && iter in pool.txs
      ensures dependent <==> !(pool.parents[iter] <= inBlock)
    {
      dependent := false;
      var todo := pool.parents[iter];
      while todo != {}
        invariant todo <= pool.parents[iter] && pool.parents[iter] - todo <= inBlock
        decreases |todo|
      {
        var parent :| parent in todo;
        if parent !in inBlock { return true; }
        todo := todo - {parent};
      }
    }

    method OnlyUnconfirmed(ancestors: set<Tx>) returns (testSet: set<Tx>)
      ensures testSet == ancestors - inBlock
    {
      testSet := ancestors;
      var todo := ancestors;
      while todo != {}
        invariant todo <= ancestors
        invariant forall t :: t in testSet <==> t in ancestors && (t in todo || t !in inBlock)
        decreases |todo|
      {
        var it :| it in todo;
        if it in inBlock { testSet := testSet - {it}; }
        todo := todo - {it};
      }
    }

    method TestPackage(packageSize: int, packageSigOps: int) returns (fits: bool)
      ensures fits <==> nBlockSize + packageSize < config.limit
                        && nBlockSigOps + packageSigOps < MaxSigOps(nBlockSize + packageSize)
    {
      var blockSizeWithPackage := nBlockSize + packageSize;
      if blockSizeWithPackage >= config.limit { return false; }
      if nBlockSigOps + packageSigOps >= MaxSigOps(blockSizeWithPackage) { return false; }
      return true;
    }

    /** Every transaction is final and all of them together leave the block below its limit. */
    method TestPackageTransactions(package: set<Tx>) returns (fits: bool)
      requires Shaped(pool) && Figured(pool) && package <= pool.txs
      ensures fits <==> (forall t :: t in package ==> config.isFinal(t))
                        && (package != {} ==> nBlockSize + Total(pool.size, package) < config.limit)
    {
      hide Shaped, Figured, Total;
      var nPotentialBlockSize := nBlockSize;
      var todo := package;
      SizesKnown(pool);
      NoTotal(pool.size, package);
      while todo != {}
        invariant todo <= package
        invariant nPotentialBlockSize == nBlockSize + Total(pool.size, package - todo)
        invariant forall t :: t in package && t !in todo ==> config.isFinal(t)
        invariant todo < package ==> nPotentialBlockSize < config.limit
        decreases |todo|
      {
        var it :| it in todo;
        if !config.isFinal(it) { return false; }
        PartTotal(pool, package, todo, it);
        if nPotentialBlockSize + pool.size[it] >= config.limit { return false; }
        nPotentialBlockSize := nPotentialBlockSize + pool.size[it];
        todo := todo - {it};
      }
      assert package - {} == package;
      return true;
    }

    /** Whether a single transaction still fits, and whether it is worth looking further. */
    method TestForBlock(it: Tx) returns (result: Fit)
      requires Shaped(pool) && it in pool.txs && config.limit >= 1000
      modifies this`lastFewTxs
      ensures result == TxFits <==>
        && nBlockSize + pool.size[it] < config.limit
        && nBlockSigOps + pool.sigOps[it] < MaxSigOps(nBlockSize + pool.size[it])
        && config.isFinal(it)
      ensures result == BlockFinished <==>
        if nBlockSize + pool.size[it] >= config.limit
        then nBlockSize > config.limit - 100 || old(lastFewTxs) > 50
        else nBlockSigOps + pool.sigOps[it] >= MaxSigOps(nBlockSize + pool.size[it])
             && nBlockSigOps > MaxSigOps(nBlockSize + pool.size[it]) - 2
      ensures lastFewTxs == old(lastFewTxs) +
        if nBlockSize + pool.size[it] >= config.limit && result != BlockFinished && nBlockSize > config.limit - 1000
        then 1 else 0
    {
      var blockSizeWithTx := nBlockSize + pool.size[it];
      if blockSizeWithTx >= config.limit {
        if nBlockSize > config.limit - 100 || lastFewTxs > 50 { return BlockFinished; }
        if nBlockSize > config.limit - 1000 { lastFewTxs := lastFewTxs + 1; }
        return TxCantFit;
      }
      var maxBlockSigOps := MaxSigOps(blockSizeWithTx);
      if nBlockSigOps + pool.sigOps[it] >= maxBlockSigOps {
        if nBlockSigOps > maxBlockSigOps - 2 { return BlockFinished; }
        return TxCantFit;
      }
      if !config.isFinal(it) { return TxCantFit; }
      return TxFits;
    }

    method AddToBlock(iter: Tx)
      requires Shaped(pool) && iter in pool.txs && iter !in inBlock
      requires Booked(pool, entries, inBlock, nBlockSize, nBlockSigOps, nBlockTx, nFees)
      modifies this`entries, this`inBlock, this`nBlockSize, this`nBlockSigOps, this`nBlockTx, this`nFees
      ensures Booked(pool, entries, inBlock, nBlockSize, nBlockSigOps, nBlockTx, nFees)
      ensures entries == old(entries) + [iter] && inBlock == old(inBlock) + {iter}
      ensures nBlockSize == old(nBlockSize) + pool.size[iter]
      ensures nBlockSigOps == old(nBlockSigOps) + pool.sigOps[iter]
      ensures nFees == old(nFees) + pool.fee[iter]
    {
      hide Booked;
      BookOne(pool, entries, inBlock, nBlockSize, nBlockSigOps, nBlockTx, nFees, iter);
      entries := entries + [iter];
      nBlockSize := nBlockSize + pool.size[iter];
      nBlockTx := nBlockTx + 1;
      nBlockSigOps := nBlockSigOps + pool.sigOps[iter];
      nFees := nFees + pool.fee[iter];
      inBlock := inBlock + {iter};
    }

    /** Adds a sorted package; the block grows by exactly what was missing. */
    method AddPackage(iter: Tx, sortedEntries: seq<Tx>, mapModifiedTx: Modified) returns (mod: Modified)
      requires Inv() && iter in pool.txs
      requires NoRepeats(sortedEntries) && Elems(sortedEntries) == Missing(pool, inBlock, iter)
      requires SortedByAncestors(pool, sortedEntries)
      requires sortedEntries != []
      requires nBlockSize + Total(pool.size, Missing(pool, inBlock, iter)) < config.limit
      requires nBlockSigOps + Total(pool.sigOps, Missing(pool, inBlock, iter)) < MaxSigOps(config.limit - 1)
      modifies this`entries, this`inBlock, this`nBlockSize, this`nBlockSigOps, this`nBlockTx, this`nFees
      ensures Inv()
      ensures entries == old(entries) + sortedEntries
      ensures inBlock == old(inBlock) + old(Missing(pool, inBlock, iter))
      ensures nBlockSize == old(nBlockSize) + old(Total(pool.size, Missing(pool, inBlock, iter)))
      ensures nBlockSigOps == old(nBlockSigOps) + old(Total(pool.sigOps, Missing(pool, inBlock, iter)))
      ensures mod == Without(mapModifiedTx, Elems(sortedEntries))
    {
      hide Related, Linked, Figured, Ordered, Booked, ParentsFirst, SortedByAncestors, Missing, MaxSigOps, Total;
      ghost var block, missing := inBlock, Missing(pool, inBlock, iter);
      assert missing !! block by { MissingApart(pool, block, iter); }
      BookedSet(pool, entries, inBlock, nBlockSize, nBlockSigOps, nBlockTx, nFees);
      SortedPackageFits(pool, entries, iter, sortedEntries);
      mod := mapModifiedTx;
      var i := 0;
      while i < |sortedEntries|
        invariant 0 <= i <= |sortedEntries|
        invariant Booked(pool, entries, inBlock, nBlockSize, nBlockSigOps, nBlockTx, nFees)
        invariant entries == old(entries) + sortedEntries[..i]
        invariant inBlock == block + Elems(sortedEntries[..i])
        invariant mod == Without(mapModifiedTx, Elems(sortedEntries[..i]))
      {
        var entry := sortedEntries[i];
        NextOfPackage(pool, block, iter, sortedEntries, i);
        AddToBlock(entry);
        mod := mod - {entry};
        assert sortedEntries[..i + 1] == sortedEntries[..i] + [entry];
        i := i + 1;
      }
      assert sortedEntries[..i] == sortedEntries;
      BookedTotals(pool, old(entries), block, missing, old(nBlockSize), old(nBlockSigOps), old(nBlockTx), old(nFees),
                   entries, nBlockSize, nBlockSigOps, nBlockTx, nFees);
    }

    /** What the selection loop keeps about its local tables. */
    ghost predicate Selecting(mi: nat, mod: Modified, failedTx: set<Tx>)
      reads this
    {
      mi <= |order| && Valid(pool) && Covers(pool, inBlock, mod) && Exact(pool, inBlock, mod, failedTx)
    }

    lemma Prepared(mi: nat, mod: Modified, failedTx: set<Tx>)
      requires Inv() && Selecting(mi, mod, failedTx)
      ensures mi <= |order| && Shaped(pool) && Ordered(pool, order) && inBlock <= pool.txs && mod.Keys <= pool.txs
    {
      hide Related, Linked, Figured, Ordered, ParentsFirst, CoversEntry, Exact, MaxSigOps;
    }

    lemma Known(mi: nat, mod: Modified, failedTx: set<Tx>)
      requires Selecting(mi, mod, failedTx)
      ensures Shaped(pool) && Figured(pool)
    {
      hide Related, Linked, Figured, Covers, Exact;
    }

    lemma SelectingOn(mi: nat, mod: Modified, failedTx: set<Tx>, next: nat)
      requires Selecting(mi, mod, failedTx) && next <= |order|
      ensures Selecting(next, mod, failedTx)
    {
      hide Valid, Covers, Exact;
    }

    /** The figures of the package chosen, and its place among what is left. */
    lemma JudgedNow(start: set<Tx>, mi: nat, mod: Modified, failedTx: set<Tx>, log: Log, iter: Tx, f: Figures)
      requires Inv() && Selecting(mi, mod, failedTx) && Shaped(pool) && Ordered(pool, order) && inBlock <= pool.txs
      requires Logged(pool, config, order, start, inBlock, mi, mod, failedTx, log)
      requires iter in pool.txs && iter !in inBlock && f == Base(pool, mod, iter)
      requires iter !in mod ==> iter !in failedTx
      requires Foremost(pool, order, mi, mod, iter, f)
      ensures Judged(pool, inBlock, iter, f, iter in failedTx) && failedTx <= log.refused.Keys
      ensures Leads(pool, inBlock, log.refused.Keys, iter, f)
    {
      hide Related, Linked, Figured, Ordered, Booked, ParentsFirst, Covers, Exact, MaxSigOps, Foremost, Leads,
           CoversEntry, ExactEntry, Picked, Refusals;
      FiguresCover(pool, inBlock, mod, failedTx, iter);
      JudgedPositive(pool, inBlock, iter, f);
      ForemostLeads(pool, order, inBlock, mi, mod, failedTx, log.refused.Keys, iter, f);
    }

    lemma JudgedAs(mi: nat, mod: Modified, failedTx: set<Tx>, iter: Tx)
      requires Inv() && Selecting(mi, mod, failedTx) && Shaped(pool)
      requires iter in pool.txs && iter !in inBlock && inBlock <= pool.txs && (iter !in mod ==> iter !in failedTx)
      ensures Judged(pool, inBlock, iter, Base(pool, mod, iter), iter in failedTx)
    {
      hide Related, Linked, Figured, Ordered, Booked, ParentsFirst, Covers, Exact, CoversEntry, ExactEntry, MaxSigOps;
      FiguresCover(pool, inBlock, mod, failedTx, iter);
    }

    /** Entries whose cached figures are stale, and those done with. */
    predicate SkipMapTxEntry(it: Tx, mapModifiedTx: Modified, failedTx: set<Tx>)
      reads this
    {
      it in mapModifiedTx || it in inBlock || it in failedTx
    }

    /** The next package to evaluate: the better of the next pool entry and the best modified one.
        It is never in the block, and nothing left to consider pays a higher rate. */
    method ChooseNext(mi: nat, mapModifiedTx: Modified, failedTx: set<Tx>)
      returns (iter: Tx, fUsingModified: bool, next: nat)
      requires Inv() && Selecting(mi, mapModifiedTx, failedTx)
      requires mi < |order| || mapModifiedTx.Keys != {}
      requires mi < |order| ==> !SkipMapTxEntry(order[mi], mapModifiedTx, failedTx)
      ensures iter in pool.txs && iter !in inBlock
      ensures fUsingModified ==> iter in mapModifiedTx && next == mi
      ensures !fUsingModified ==> mi < |order| && iter == order[mi] && next == mi + 1
      ensures Foremost(pool, order, mi, mapModifiedTx, iter,
                       if fUsingModified then mapModifiedTx[iter] else pool.cached[iter])
    {
      hide Related, Linked, Figured, Booked, ParentsFirst, Better, CoversEntry, ExactEntry, Foremost;
      CoversPositive(pool, inBlock, mapModifiedTx);
      CachedPositive(pool);
      if mi == |order| {
        var modit := BestModified(mapModifiedTx);
        ForemostModified(pool, order, mi, mapModifiedTx, modit);
        return modit, true, mi;
      }
      InOrder(pool, order, mi);
      iter := order[mi];
      if mapModifiedTx.Keys != {} {
        var modit := BestModified(mapModifiedTx);
        if Better(mapModifiedTx[modit], modit, pool.cached[iter], iter) {
          ForemostModified(pool, order, mi, mapModifiedTx, modit);
          return modit, true, mi;
        }
        ForemostPooled(pool, order, mi, mapModifiedTx, modit);
      } else {
        ForemostAlone(pool, order, mi, mapModifiedTx);
      }
      return iter, false, mi + 1;
    }

    /** Evaluates a package: gives up if it pays too little, refuses it if the block does not admit
        it, or else adds it with the ancestors it still needs. */
    method ConsiderPackage(iter: Tx, fUsingModified: bool, mi: nat, mapModifiedTx: Modified, failedTx: set<Tx>,
                           nFailed: nat)
      returns (mod: Modified, failed: set<Tx>, nConsecutiveFailed: nat, stop: bool, added: bool)
      requires Inv() && Selecting(mi, mapModifiedTx, failedTx)
      requires iter in pool.txs && iter !in inBlock && inBlock <= pool.txs
      requires fUsingModified <==> iter in mapModifiedTx
      requires !fUsingModified ==> iter !in failedTx
      modifies this`entries, this`inBlock, this`nBlockSize, this`nBlockSigOps, this`nBlockTx, this`nFees
      ensures Inv() && Selecting(mi, mod, failed) && old(entries) <= entries
      ensures inBlock <= pool.txs
      ensures Considered(pool, config, Tables(mi, mapModifiedTx, failedTx, nFailed, old(inBlock)), iter,
                         Tables(mi, mod, failed, nConsecutiveFailed, inBlock), stop, added)
      ensures !added ==> entries == old(entries) && nBlockSigOps == old(nBlockSigOps) && nBlockSize == old(nBlockSize)
      ensures added && iter !in failedTx ==> SigOpsFit()
    {
      hide Inv, Selecting, Shaped, Considered, Judged, Room, Admits, SizeOf, SigOpsOf, MaxSigOps, Without, Missing,
           LoweredFor;
      mod, failed, nConsecutiveFailed, stop, added := mapModifiedTx, failedTx, nFailed, false, false;
      ghost var st := Tables(mi, mapModifiedTx, failedTx, nFailed, inBlock);
      Limits();
      Known(mi, mod, failed);
      FiguresKnown(pool, iter);
      var figures := if fUsingModified then mapModifiedTx[iter] else pool.cached[iter];
      if figures.fees < config.minFee(figures.size) {
        stop := true;
        CheapStops(pool, config, st, iter);
        return;
      }
      JudgedAs(mi, mapModifiedTx, failedTx, iter);
      RoomIs(pool, config, inBlock, figures, nBlockSize, nBlockSigOps);
      ghost var room := Room(pool, config, inBlock, figures);
      var fits := TestPackage(figures.size, figures.sigOps);
      if !fits {
        mod, failed := DropFailed(iter, fUsingModified, mi, mod, failed);
        nConsecutiveFailed := nConsecutiveFailed + 1;
        stop := nConsecutiveFailed > MAX_CONSECUTIVE_FAILURES && nBlockSize > config.limit - 1000;
        NoRoomRefuses(pool, config, st, iter, Tables(mi, mod, failed, nConsecutiveFailed, inBlock), stop, room);
        return;
      }
      mod, failed, added := TryPackage(iter, fUsingModified, mi, mod, failed, figures);
      if added { nConsecutiveFailed := 0; }
      RoomDecides(pool, config, st, iter, Tables(mi, mod, failed, nConsecutiveFailed, inBlock), added, room);
    }

    /** Adds a package there is room for, if all that is missing of it is final. */
    method TryPackage(iter: Tx, fUsingModified: bool, mi: nat, mapModifiedTx: Modified, failedTx: set<Tx>,
                      figures: Figures)
      returns (mod: Modified, failed: set<Tx>, added: bool)
      requires Inv() && Selecting(mi, mapModifiedTx, failedTx) && inBlock <= pool.txs
      requires Judged(pool, inBlock, iter, figures, iter in failedTx)
      requires nBlockSize + figures.size < config.limit
      requires nBlockSigOps + figures.sigOps < MaxSigOps(nBlockSize + figures.size)
      modifies this`entries, this`inBlock, this`nBlockSize, this`nBlockSigOps, this`nBlockTx, this`nFees
      ensures Inv() && Selecting(mi, mod, failed) && old(entries) <= entries
      ensures added <==> Admits(pool, config, old(inBlock), iter, figures)
      ensures added ==> failed == failedTx && inBlock <= pool.txs
      ensures added ==> LoweredFor(pool, mapModifiedTx, old(inBlock), iter, mod)
      ensures !added ==>
        && mod == (if fUsingModified then Without(mapModifiedTx, {iter}) else mapModifiedTx)
        && failed == (if fUsingModified then failedTx + {iter} else failedTx)
      ensures inBlock == old(inBlock) + if added then Missing(pool, old(inBlock), iter) else {}
      ensures !added ==> entries == old(entries) && nBlockSigOps == old(nBlockSigOps) && nBlockSize == old(nBlockSize)
      ensures added && iter !in failedTx ==> SigOpsFit()
    {
      hide Inv, Selecting, Shaped, Figured, Total, MaxSigOps, SizeOf, SigOpsOf, Without, Missing, LoweredFor;
      mod, failed := mapModifiedTx, failedTx;
      Limits();
      Known(mi, mod, failed);
      FiguresKnown(pool, iter);
      RoomIs(pool, config, inBlock, figures, nBlockSize, nBlockSigOps);
      var ancestors := OnlyUnconfirmed(pool.ancestors[iter]);
      ancestors := ancestors + {iter};
      MissingIs(pool, inBlock, iter, ancestors);
      added := TestPackageTransactions(ancestors);
      if !added {
        mod, failed := DropFailed(iter, fUsingModified, mi, mod, failed);
        return;
      }
      mod := IncludePackage(iter, ancestors, mi, mod, failed, figures);
    }

    /** A failed entry of the table is erased from it and remembered. */
    method DropFailed(iter: Tx, fUsingModified: bool, mi: nat, mapModifiedTx: Modified, failedTx: set<Tx>)
      returns (mod: Modified, failed: set<Tx>)
      requires Inv() && Selecting(mi, mapModifiedTx, failedTx)
      ensures mod == if fUsingModified then Without(mapModifiedTx, {iter}) else mapModifiedTx
      ensures failed == if fUsingModified then failedTx + {iter} else failedTx
      ensures Selecting(mi, mod, failed)
    {
      hide Related, Linked, Figured, Ordered, Booked, ParentsFirst, Covers, Exact;
      mod, failed := mapModifiedTx, failedTx;
      if fUsingModified {
        ErasedKeeps(pool, inBlock, mod, failed, {iter});
        mod := mod - {iter};
        assert mod == Without(mapModifiedTx, {iter});
        failed := failed + {iter};
      }
    }

    /** Sorts a package, adds it and lowers what depends on it. */
    method IncludePackage(iter: Tx, package: set<Tx>, mi: nat, mapModifiedTx: Modified, failedTx: set<Tx>,
                          figures: Figures)
      returns (mod: Modified)
      requires Inv() && Selecting(mi, mapModifiedTx, failedTx)
      requires iter in pool.txs && iter !in inBlock && package == Missing(pool, inBlock, iter) && package <= pool.txs
      requires nBlockSize + Total(pool.size, package) < config.limit
      requires figures.size >= Total(pool.size, package) && figures.sigOps >= Total(pool.sigOps, package)
      requires nBlockSize + figures.size < config.limit
      requires nBlockSigOps + figures.sigOps < MaxSigOps(nBlockSize + figures.size)
      modifies this`entries, this`inBlock, this`nBlockSize, this`nBlockSigOps, this`nBlockTx, this`nFees
      ensures Inv() && Selecting(mi, mod, failedTx)
      ensures old(entries) <= entries && inBlock == old(inBlock) + package
      ensures inBlock <= pool.txs && LoweredFor(pool, mapModifiedTx, old(inBlock), iter, mod)
      ensures nBlockSize == old(nBlockSize) + Total(pool.size, package)
      ensures nBlockSigOps == old(nBlockSigOps) + Total(pool.sigOps, package)
    {
      hide Related, Linked, Figured, Ordered, Booked, ParentsFirst, Covers, Exact, Total, MaxSigOps, SortedByAncestors;
      ghost var block := inBlock;
      InTemplate(pool, entries, inBlock, nBlockSize, nBlockSigOps, nBlockTx, nFees);
      SizesPositive(pool, package);
      MaxSigOpsGrows(nBlockSize + figures.size, config.limit - 1);
      var sortedEntries := SortForBlock(pool, package);
      assert iter in Elems(sortedEntries);
      var erased := AddPackage(iter, sortedEntries, mapModifiedTx);
      BookedKeys(pool, block, mapModifiedTx, package);
      var updated;
      mod, updated := UpdatePackagesForAdded(pool, package, erased);
      PackageKeeps(pool, block, package, mapModifiedTx, failedTx, mod);
    }

    /** One round of the selection loop, as it goes into the log: an entry is skipped, refused or
        picked, or selection ends.  Unless it ends, the block grows or less is left to consider. */
    method SelectOne(mi: nat, mapModifiedTx: Modified, failedTx: set<Tx>, nFailed: nat, ghost start: set<Tx>,
                     ghost log: Log)
      returns (next: nat, mod: Modified, failed: set<Tx>, nConsecutiveFailed: nat, stop: bool, added: bool,
               ghost log': Log, ghost ending: Ending)
      requires Inv() && Selecting(mi, mapModifiedTx, failedTx) && inBlock <= pool.txs
      requires Logged(pool, config, order, start, inBlock, mi, mapModifiedTx, failedTx, log)
      requires mi < |order| || mapModifiedTx.Keys != {}
      modifies this`entries, this`inBlock, this`nBlockSize, this`nBlockSigOps, this`nBlockTx, this`nFees
      ensures next <= |order| && Inv() && Selecting(next, mod, failed) && old(entries) <= entries && inBlock <= pool.txs
      ensures !stop ==> Logged(pool, config, order, start, inBlock, next, mod, failed, log')
      ensures stop ==> Picked(pool, config, start, log'.picks, inBlock) && Refusals(pool, config, inBlock, log'.refused)
      ensures stop ==> Ends(pool, config, inBlock, log'.refused.Keys, ending)
      ensures stop || Progress(pool.txs, |order|, old(inBlock), inBlock, mi, next, mapModifiedTx, mod)
      ensures Round(pool, config, order, Tables(mi, mapModifiedTx, failedTx, nFailed, old(inBlock)),
                    Tables(next, mod, failed, nConsecutiveFailed, inBlock), stop)
      ensures log.picks <= log'.picks && |log'.picks| == |log.picks| + if added then 1 else 0
      ensures (if added then !log'.picks[|log.picks|].failed else old(SigOpsFit())) ==> SigOpsFit()
    {
      hide Inv, Selecting, Ordered, Logged, Picked, Refusals, Ends, SigOpsFit, Foremost, Considered;
      Prepared(mi, mapModifiedTx, failedTx);
      if mi < |order| && SkipMapTxEntry(order[mi], mapModifiedTx, failedTx) {
        mod, failed, nConsecutiveFailed, stop, added := mapModifiedTx, failedTx, nFailed, false, false;
        log', ending := log, Exhausted;
        next := mi + 1;
        SkipLogged(pool, config, order, start, inBlock, mi, mapModifiedTx, failedTx, log);
        SelectingOn(mi, mapModifiedTx, failedTx, next);
        return;
      }
      next, mod, failed, nConsecutiveFailed, stop, added, log', ending :=
        EvaluateNext(mi, mapModifiedTx, failedTx, nFailed, start, log);
    }

    method EvaluateNext(mi: nat, mapModifiedTx: Modified, failedTx: set<Tx>, nFailed: nat, ghost start: set<Tx>,
                        ghost log: Log)
      returns (next: nat, mod: Modified, failed: set<Tx>, nConsecutiveFailed: nat, stop: bool, added: bool,
               ghost log': Log, ghost ending: Ending)
      requires Inv() && Selecting(mi, mapModifiedTx, failedTx) && inBlock <= pool.txs
      requires Logged(pool, config, order, start, inBlock, mi, mapModifiedTx, failedTx, log)
      requires mi < |order| || mapModifiedTx.Keys != {}
      requires mi < |order| ==> !SkipMapTxEntry(order[mi], mapModifiedTx, failedTx)
      modifies this`entries, this`inBlock, this`nBlockSize, this`nBlockSigOps, this`nBlockTx, this`nFees
      ensures next <= |order| && Inv() && Selecting(next, mod, failed) && old(entries) <= entries && inBlock <= pool.txs
      ensures !stop ==> Logged(pool, config, order, start, inBlock, next, mod, failed, log')
      ensures stop ==> Picked(pool, config, start, log'.picks, inBlock) && Refusals(pool, config, inBlock, log'.refused)
      ensures stop ==> Ends(pool, config, inBlock, log'.refused.Keys, ending)
      ensures stop || Progress(pool.txs, |order|, old(inBlock), inBlock, mi, next, mapModifiedTx, mod)
      ensures Round(pool, config, order, Tables(mi, mapModifiedTx, failedTx, nFailed, old(inBlock)),
                    Tables(next, mod, failed, nConsecutiveFailed, inBlock), stop)
      ensures log.picks <= log'.picks && |log'.picks| == |log.picks| + if added then 1 else 0
      ensures (if added then !log'.picks[|log.picks|].failed else old(SigOpsFit())) ==> SigOpsFit()
    {
      hide Inv, Selecting, Ordered, Foremost, Without, Logged, Room, Leads, Judged, Picked, Refusals, SizeOf, Ends,
           Missing, MaxSigOps, Progress, Lowered, LoweredFor, Round, Considered;
      ghost var block := inBlock;
      Prepared(mi, mapModifiedTx, failedTx);
      var iter, fUsingModified;
      iter, fUsingModified, next := ChooseNext(mi, mapModifiedTx, failedTx);
      ghost var f := Base(pool, mapModifiedTx, iter);
      SelectingOn(mi, mapModifiedTx, failedTx, next);
      JudgedNow(start, mi, mapModifiedTx, failedTx, log, iter, f);
      mod, failed, nConsecutiveFailed, stop, added :=
        ConsiderPackage(iter, fUsingModified, next, mapModifiedTx, failedTx, nFailed);
      Prepared(next, mod, failed);
      ConsideredFrom(pool, config, Tables(next, mapModifiedTx, failedTx, nFailed, block), iter,
                     Tables(next, mod, failed, nConsecutiveFailed, inBlock), stop, added, mi);
      log', ending := LogRound(pool, config, order, start, Tables(mi, mapModifiedTx, failedTx, nFailed, block), iter,
                               Tables(next, mod, failed, nConsecutiveFailed, inBlock), log, stop, added);
      RoundIs(pool, config, order, Tables(mi, mapModifiedTx, failedTx, nFailed, block), iter,
              Tables(next, mod, failed, nConsecutiveFailed, inBlock), stop, added);
      if !stop {
        RoundProgress(pool, config, |order|, Tables(mi, mapModifiedTx, failedTx, nFailed, block), iter,
                      Tables(next, mod, failed, nConsecutiveFailed, inBlock), added);
      }
    }

    /** The table for what is in the block before packages are selected. */
    method StartModified() returns (mapModifiedTx: Modified)
      requires Inv()
      ensures Selecting(0, mapModifiedTx, {}) && Shaped(pool)
      ensures Opened(pool, inBlock, Tables(0, mapModifiedTx, {}, 0, inBlock))
    {
      hide Related, Linked, Figured, Ordered, Booked, ParentsFirst, Covers, Exact, Total, MaxSigOps, Closed;
      InTemplate(pool, entries, inBlock, nBlockSize, nBlockSigOps, nBlockTx, nFees);
      var updated;
      mapModifiedTx, updated := UpdatePackagesForAdded(pool, inBlock, map[]);
      FirstRoundKeeps(pool, inBlock, mapModifiedTx);
    }

    /** Selects packages by fee rate until the pool or the block is exhausted.  The log accounts for
        the whole run: every pick was then the best of what was left, everything refused really did
        not fit, and nothing is left over for any other reason than `ending` says.  Unless a package
        is picked that had failed before, the signature operations stay within the allowance of the
        block's own size. */
    method AddPackageTxs()
      returns (nPackagesSelected: nat, ghost log: Log, ghost ending: Ending, ghost trace: seq<Tables>)
      requires Inv()
      modifies this`entries, this`inBlock, this`nBlockSize, this`nBlockSigOps, this`nBlockTx, this`nFees
      ensures Inv() && old(entries) <= entries && inBlock <= pool.txs
      ensures nPackagesSelected == |log.picks| && Picked(pool, config, old(inBlock), log.picks, inBlock)
      ensures Refusals(pool, config, inBlock, log.refused) && Ends(pool, config, inBlock, log.refused.Keys, ending)
      ensures old(SigOpsFit()) && NoneFailed(log.picks) ==> SigOpsFit()
      ensures Shaped(pool) && Traced(pool, config, order, old(inBlock), trace, inBlock)
    {
      hide Inv, Selecting, SigOpsFit, Logged, Picked, Refusals, Ends, NoneFailed, Ordered, Shaped, Opened, Round,
           Running, Traced;
      nPackagesSelected, log, ending := 0, Log([], map[]), Exhausted;
      ghost var start := inBlock;
      var mapModifiedTx := StartModified();
      var failedTx: set<Tx> := {};
      var mi: nat, nConsecutiveFailed: nat := 0, 0;
      Prepared(mi, mapModifiedTx, failedTx);
      StartLogged(pool, config, order, inBlock, mapModifiedTx);
      ghost var now := Tables(mi, mapModifiedTx, failedTx, nConsecutiveFailed, inBlock);
      trace := [now];
      StartRunning(pool, config, order, start, now);
      while mi < |order| || mapModifiedTx.Keys != {}
        invariant mi <= |order| && Inv() && old(entries) <= entries && Selecting(mi, mapModifiedTx, failedTx)
        invariant inBlock <= pool.txs && Logged(pool, config, order, start, inBlock, mi, mapModifiedTx, failedTx, log)
        invariant now == Tables(mi, mapModifiedTx, failedTx, nConsecutiveFailed, inBlock)
        invariant Running(pool, config, order, start, trace, now)
        invariant nPackagesSelected == |log.picks|
        invariant old(SigOpsFit()) && NoneFailed(log.picks) ==> SigOpsFit()
        decreases |pool.txs - inBlock|, |order| - mi + |mapModifiedTx|
      {
        var stop, added;
        ghost var before := log;
        mi, mapModifiedTx, failedTx, nConsecutiveFailed, stop, added, log, ending :=
          SelectOne(mi, mapModifiedTx, failedTx, nConsecutiveFailed, start, log);
        NoneFailedBefore(before.picks, log.picks);
        if added { nPackagesSelected := nPackagesSelected + 1; }
        ghost var was := now;
        now := Tables(mi, mapModifiedTx, failedTx, nConsecutiveFailed, inBlock);
        if stop {
          StopRunning(pool, config, order, start, trace, was, now);
          trace := trace + [now];
          return;
        }
        KeepRunning(pool, config, order, start, trace, was, now);
        trace := trace + [now];
      }
      NothingRemains(pool, config, order, start, inBlock, mi, mapModifiedTx, failedTx, log);
      LoggedPicks(pool, config, order, start, inBlock, mi, mapModifiedTx, failedTx, log);
      RanOut(pool, config, order, start, trace, now);
      ending := Exhausted;
    }

    /** Adds a transaction whose parents are all in the block. */
    method AddFitting(iter: Tx)
      requires Inv() && SigOpsFit() && iter in pool.txs && iter !in inBlock && pool.parents[iter] <= inBlock
      requires nBlockSize + pool.size[iter] < config.limit
      requires nBlockSigOps + pool.sigOps[iter] < MaxSigOps(nBlockSize + pool.size[iter])
      modifies this`entries, this`inBlock, this`nBlockSize, this`nBlockSigOps, this`nBlockTx, this`nFees
      ensures Inv() && SigOpsFit()
      ensures entries == old(entries) + [iter] && inBlock == old(inBlock) + {iter}
    {
      hide Related, Linked, Figured, Ordered, Booked, ParentsFirst, MaxSigOps;
      InTemplate(pool, entries, inBlock, nBlockSize, nBlockSigOps, nBlockTx, nFees);
      SizeAtLeast(pool, iter);
      MaxSigOpsGrows(nBlockSize + pool.size[iter], config.limit - 1);
      BookedSet(pool, entries, inBlock, nBlockSize, nBlockSigOps, nBlockTx, nFees);
      ChildFits(pool, entries, iter);
      AddToBlock(iter);
    }

    /** The children of a transaction just added that were waiting go back in the queue. */
    method Requeue(iter: Tx, vecPriority: Queue, waitPriMap: map<Tx, real>) returns (vec: Queue, wait: map<Tx, real>)
      requires Shaped(pool) && iter in pool.txs && Queued(pool, inBlock, vecPriority, waitPriMap)
      ensures Queued(pool, inBlock, vec, wait) && waitPriMap.Keys <= pool.txs
      ensures wait == map c | c in waitPriMap && iter !in pool.parents[c] :: waitPriMap[c]
      ensures vecPriority <= vec && QueueIds(vec) == QueueIds(vecPriority) + (waitPriMap.Keys - wait.Keys)
      ensures forall i :: |vecPriority| <= i < |vec| ==> vec[i].1 in waitPriMap && vec[i].0 == waitPriMap[vec[i].1]
    {
      hide Shaped, Queued, QueueIds, Requeued;
      vec, wait := vecPriority, waitPriMap;
      WaitingKnown(pool, inBlock, vec, wait);
      var todo := Children(pool, iter);
      ghost var children := todo;
      RequeueStart(vec, wait, children);
      while todo != {}
        invariant Queued(pool, inBlock, vec, wait) && Requeued(vecPriority, waitPriMap, children, todo, vec, wait)
        decreases |todo|
      {
        var child :| child in todo;
        RequeueStep(vecPriority, waitPriMap, children, todo, vec, wait, child);
        if child in wait {
          QueueBack(pool, inBlock, vec, wait, child);
          vec := vec + [(wait[child], child)];
          wait := wait - {child};
        }
        todo := todo - {child};
      }
      RequeueEnd(pool, iter, vecPriority, waitPriMap, vec, wait);
    }

    /** Fills the part of the block kept for priority.  The log accounts for the order: each
        transaction taken was ready and had the highest priority of those ready, everything turned
        down really did not fit, and taking ended for the reason given. */
    method AddPriorityTxs() returns (ghost log: TurnLog, ghost ending: TurnEnding)
      requires Inv() && SigOpsFit() && entries == []
      modifies this
      ensures Inv() && SigOpsFit() && inBlock <= pool.txs
      ensures config.priorityPercentage == 0 ==> entries == [] && inBlock == {}
      ensures Turns(pool, config, Quota(config), log.turns, inBlock) && TurnedDown(pool, config, inBlock, log.refused)
      ensures config.priorityPercentage != 0 ==> TurnsEnd(pool, config, Quota(config), inBlock, log, ending)
    {
      hide Inv, SigOpsFit, Queued, Covered, TurnsLogged, Turns, TurnedDown, TurnsEnd, Quota, Shaped;
      log, ending := TurnLog([], map[]), QueueEmpty;
      NothingTaken();
      StartTurns(pool, config, Quota(config));
      if config.priorityPercentage == 0 { return; }
      var nBlockPrioritySize := Quota(config);
      var vecPriority := FillQueue();
      var waitPriMap: map<Tx, real> := map[];
      while vecPriority != []
        invariant Inv() && SigOpsFit() && Queued(pool, inBlock, vecPriority, waitPriMap) && inBlock <= pool.txs
        invariant Covered(pool, config, inBlock, vecPriority, waitPriMap, log.refused.Keys)
        invariant TurnsLogged(pool, config, nBlockPrioritySize, inBlock, log)
        decreases |pool.txs - inBlock|, |vecPriority|
      {
        var stop;
        vecPriority, waitPriMap, stop, log, ending := TakeByPriority(vecPriority, waitPriMap, nBlockPrioritySize, log);
        if stop { return; }
      }
      QueueRanOut(pool, config, nBlockPrioritySize, inBlock, waitPriMap, log);
      TurnsOf(pool, config, nBlockPrioritySize, inBlock, log);
      ending := QueueEmpty;
    }

    lemma NothingTaken()
      requires Inv() && entries == []
      ensures inBlock == {} && Shaped(pool)
    {
      hide Related, Linked, Figured, Ordered, ParentsFirst, MaxSigOps;
    }

    method FillQueue() returns (vecPriority: Queue)
      requires Inv() && inBlock == {} && Shaped(pool)
      ensures Queued(pool, inBlock, vecPriority, map[]) && Covered(pool, config, inBlock, vecPriority, map[], {})
    {
      hide Inv, Shaped, QueueIds;
      vecPriority := [];
      var todo := pool.txs;
      NoIds();
      while todo != {}
        invariant todo <= pool.txs && Queued(pool, inBlock, vecPriority, map[])
        invariant QueueIds(vecPriority) == pool.txs - todo
        invariant forall i :: 0 <= i < |vecPriority| ==> vecPriority[i].1 !in todo
        invariant forall i :: 0 <= i < |vecPriority| ==> vecPriority[i].0 == config.priority(vecPriority[i].1)
        decreases |todo|
      {
        var mi :| mi in todo;
        IdsBack(vecPriority, config.priority(mi), mi);
        vecPriority := vecPriority + [(config.priority(mi), mi)];
        todo := todo - {mi};
      }
    }

    /** One round: the transaction of highest priority waits for a parent, is turned down, is taken,
        or finds the block finished. */
    method TakeByPriority(vecPriority: Queue, waitPriMap: map<Tx, real>, nBlockPrioritySize: int, ghost log: TurnLog)
      returns (vec: Queue, wait: map<Tx, real>, stop: bool, ghost log': TurnLog, ghost ending: TurnEnding)
      requires Inv() && SigOpsFit() && vecPriority != [] && Queued(pool, inBlock, vecPriority, waitPriMap)
      requires Shaped(pool) && inBlock <= pool.txs
      requires Covered(pool, config, inBlock, vecPriority, waitPriMap, log.refused.Keys)
      requires TurnsLogged(pool, config, nBlockPrioritySize, inBlock, log)
      modifies this
      ensures Inv() && SigOpsFit() && Queued(pool, inBlock, vec, wait) && inBlock <= pool.txs
      ensures Turns(pool, config, nBlockPrioritySize, log'.turns, inBlock)
      ensures TurnedDown(pool, config, inBlock, log'.refused)
      ensures if stop then TurnsEnd(pool, config, nBlockPrioritySize, inBlock, log', ending)
              else && TurnsLogged(pool, config, nBlockPrioritySize, inBlock, log')
                   && Covered(pool, config, inBlock, vec, wait, log'.refused.Keys)
      ensures stop || |pool.txs - inBlock| < old(|pool.txs - inBlock|) ||
        (inBlock == old(inBlock) && |vec| < |vecPriority|)
    {
      hide Inv, SigOpsFit, Queued, Covered, Turns, TurnedDown, Highest, GoesOn, Shaped, Ready, QueueIds;
      var actualPriority, iter;
      actualPriority, iter, vec := PopHeap(vecPriority);
      wait, stop, log', ending := waitPriMap, false, log, QueueEmpty;
      PopQueued(pool, inBlock, vecPriority, waitPriMap, actualPriority, iter, vec);
      PopIds(vecPriority, actualPriority, iter, vec);
      PopHighest(pool, config, inBlock, vecPriority, waitPriMap, log.refused.Keys, actualPriority, iter);
      PopCovered(pool, config, inBlock, vecPriority, waitPriMap, log.refused.Keys, actualPriority, iter, vec);
      assert iter !in inBlock;
      var dependent := IsStillDependent(iter);
      MeansReady(pool, inBlock, iter);
      if dependent {
        WaitQueued(pool, inBlock, vec, wait, iter, actualPriority);
        wait := wait[iter := actualPriority];
        return;
      }
      vec, wait, stop, log', ending := TakeReady(iter, vec, wait, nBlockPrioritySize, log);
    }

    /** Takes a transaction whose parents are in the block, if it fits. */
    method TakeReady(iter: Tx, vecPriority: Queue, waitPriMap: map<Tx, real>, nBlockPrioritySize: int,
                     ghost log: TurnLog)
      returns (vec: Queue, wait: map<Tx, real>, stop: bool, ghost log': TurnLog, ghost ending: TurnEnding)
      requires Inv() && SigOpsFit() && Queued(pool, inBlock, vecPriority, waitPriMap)
      requires Shaped(pool) && inBlock <= pool.txs
      requires Covered(pool, config, inBlock, vecPriority, waitPriMap, log.refused.Keys + {iter})
      requires TurnsLogged(pool, config, nBlockPrioritySize, inBlock, log)
      requires iter in pool.txs && iter !in inBlock && Ready(pool, inBlock, iter) && iter !in waitPriMap
      requires Highest(pool, config, inBlock, log.refused.Keys, iter)
      requires forall i :: 0 <= i < |vecPriority| ==> vecPriority[i].1 != iter
      modifies this
      ensures Inv() && SigOpsFit() && Queued(pool, inBlock, vec, wait) && inBlock <= pool.txs
      ensures Turns(pool, config, nBlockPrioritySize, log'.turns, inBlock)
      ensures TurnedDown(pool, config, inBlock, log'.refused)
      ensures if stop then TurnsEnd(pool, config, nBlockPrioritySize, inBlock, log', ending)
              else && TurnsLogged(pool, config, nBlockPrioritySize, inBlock, log')
                   && Covered(pool, config, inBlock, vec, wait, log'.refused.Keys)
      ensures stop || |pool.txs - inBlock| < old(|pool.txs - inBlock|) ||
        (inBlock == old(inBlock) && |vec| == |vecPriority|)
    {
      hide Inv, SigOpsFit, Queued, Covered, Turns, TurnedDown, Highest, Shaped, QueueIds, SizeOf, SigOpsOf, MaxSigOps;
      vec, wait, stop, log', ending := vecPriority, waitPriMap, false, log, QueueEmpty;
      ghost var block := inBlock;
      Limits();
      var testResult := TestForBlock(iter);
      FitsMeans(pool, config, inBlock, iter, nBlockSize, nBlockSigOps, testResult == TxFits);
      if testResult == BlockFinished {
        stop, ending := true, BlockFull(iter);
        return;
      }
      if testResult != TxFits {
        RefusalLogged(pool, config, nBlockPrioritySize, inBlock, log, iter);
        log' := log.(refused := log.refused[iter := inBlock]);
        assert log'.refused.Keys == log.refused.Keys + {iter};
        return;
      }
      ghost var p := Turn(iter, inBlock, log.refused.Keys);
      TurnLogged(pool, config, nBlockPrioritySize, inBlock, log, p);
      log' := log.(turns := log.turns + [p]);
      AddFitting(iter);
      GrowQueued(pool, block, vec, wait, iter);
      BlockGrows(pool.txs, block, inBlock, iter);
      Limits();
      if nBlockSize >= nBlockPrioritySize {
        stop, ending := true, QuotaReached;
        return;
      }
      if config.priority(iter) <= config.freeThreshold {
        stop, ending := true, NotFree;
        return;
      }
      vec, wait := Requeue(iter, vec, wait);
      TakeCovered(pool, config, block, vecPriority, waitPriMap, log.refused.Keys, iter, vec, wait);
    }

    lemma Limits()
      requires Inv()
      ensures Shaped(pool) && config.limit >= 1000 && inBlock <= pool.txs
      ensures nBlockSize == SizeOf(pool, inBlock) && nBlockSigOps == SigOpsOf(pool, inBlock)
    {
      hide Related, Linked, Figured, Ordered, ParentsFirst, MaxSigOps;
    }

    /** Up to one megabyte of other content every block has the same allowance, so being within that
        of the limit is being within its own. */
    lemma SmallBlocksFit()
      requires Inv()
      ensures config.limit <= ONE_MEGABYTE + 1 ==> SigOpsFit()
    {
      hide Related, Linked, Figured, Ordered, Booked, ParentsFirst;
      InTemplate(pool, entries, inBlock, nBlockSize, nBlockSigOps, nBlockTx, nFees);
    }

    /** The transactions of a new block, in canonical order: by id, each once. */
    method CreateNewBlock()
      returns (block: seq<Tx>, ghost turns: TurnLog, ghost enough: TurnEnding, ghost priority: set<Tx>,
               ghost log: Log, ghost ending: Ending, ghost trace: seq<Tables>)
      requires Valid(pool) && Ordered(pool, order) && config.limit >= 1000
      modifies this
      ensures Inv() && inBlock <= pool.txs
      ensures config.limit <= ONE_MEGABYTE + 1 || NoneFailed(log.picks) ==> SigOpsFit()
      ensures Traced(pool, config, order, priority, trace, inBlock)
      ensures config.priorityPercentage == 0 ==> priority == {}
      ensures Turns(pool, config, Quota(config), turns.turns, priority) && priority <= pool.txs
      ensures TurnedDown(pool, config, priority, turns.refused)
      ensures config.priorityPercentage != 0 ==> TurnsEnd(pool, config, Quota(config), priority, turns, enough)
      ensures Picked(pool, config, priority, log.picks, inBlock)
      ensures Refusals(pool, config, inBlock, log.refused) && Ends(pool, config, inBlock, log.refused.Keys, ending)
      ensures Elems(block) == inBlock && forall i, j :: 0 <= i < j < |block| ==> block[i] < block[j]
    {
      hide Inv, SigOpsFit, Turns, TurnedDown, TurnsEnd, Picked, Refusals, Ends, Traced, NoneFailed;
      ResetBlock();
      turns, enough := AddPriorityTxs();
      priority := inBlock;
      var selected;
      selected, log, ending, trace := AddPackageTxs();
      SmallBlocksFit();
      block := SortById(inBlock);
    }
  }

  lemma SizeAtLeast(pool: Pool, t: Tx)
    requires Shaped(pool) && Figured(pool) && t in pool.txs
    ensures pool.size[t] > 0
  {
    hide CachedRight;
  }

  lemma ChildFits(pool: Pool, entries: seq<Tx>, t: Tx)
    requires Shaped(pool) && ParentsFirst(pool, entries) && t in pool.txs && pool.parents[t] <= Elems(entries)
    ensures ParentsFirst(pool, entries + [t])
  {
    var all := entries + [t];
    forall i | 0 <= i < |all|
      ensures all[i] in pool.txs && forall p :: p in pool.parents[all[i]] ==> p in all[..i]
    {
      assert all[..i] == if i < |entries| then entries[..i] else entries;
      if i == |entries| {
        forall p | p in pool.parents[t] ensures p in entries { assert p in Elems(entries); }
      }
    }
  }

  method SortById(txs: set<Tx>) returns (sorted: seq<Tx>)
    ensures Elems(sorted) == txs && forall i, j :: 0 <= i < j < |sorted| ==> sorted[i] < sorted[j]
  {
    hide Elems, Increasing;
    sorted := [];
    var todo := txs;
    IncreasingStart(txs);
    while todo != {}
      invariant todo <= txs && Increasing(txs, todo, sorted)
      decreases |todo|
    {
      var least := LeastId(todo);
      IncreasingStep(txs, todo, sorted, least);
      sorted := sorted + [least];
      todo := todo - {least};
    }
    IncreasingEnd(txs, sorted);
  }

  predicate Increasing(txs: set<Tx>, todo: set<Tx>, sorted: seq<Tx>) {
    && Elems(sorted) == txs - todo
    && (forall i, t :: 0 <= i < |sorted| && t in todo ==> sorted[i] < t)
    && forall i, j :: 0 <= i < j < |sorted| ==> sorted[i] < sorted[j]
  }

  lemma IncreasingStart(txs: set<Tx>)
    ensures Increasing(txs, txs, [])
  {
  }

  lemma IncreasingStep(txs: set<Tx>, todo: set<Tx>, sorted: seq<Tx>, least: Tx)
    requires todo <= txs && Increasing(txs, todo, sorted) && least in todo && forall t :: t in todo ==> least <= t
    ensures Increasing(txs, todo - {least}, sorted + [least])
  {
    assert Elems(sorted + [least]) == Elems(sorted) + {least};
  }

  lemma IncreasingEnd(txs: set<Tx>, sorted: seq<Tx>)
    requires Increasing(txs, {}, sorted)
    ensures Elems(sorted) == txs && forall i, j :: 0 <= i < j < |sorted| ==> sorted[i] < sorted[j]
  {
  }

  method LeastId(txs: set<Tx>) returns (least: Tx)
    requires txs != {}
    ensures least in txs && forall t :: t in txs ==> least <= t
  {
    least :| least in txs;
    var todo := txs - {least};
    while todo != {}
      invariant todo <= txs && least in txs
      invariant forall t :: t in txs && t !in todo ==> least <= t
      decreases |todo|
    {
      var t :| t in todo;
      todo := todo - {t};
      if t < least { least := t; }
    }
  }

  lemma SizesPositive(pool: Pool, package: set<Tx>)
    requires Shaped(pool) && Figured(pool) && package <= pool.txs
    ensures Total(pool.size, package) >= 0
  {
    hide CachedRight;
    TotalNonnegative(pool.size, package);
  }

  lemma InTemplate(pool: Pool, entries: seq<Tx>, inBlock: set<Tx>, size: int, sigOps: int, count: int, fees: int)
    requires Valid(pool) && ParentsFirst(pool, entries) && Booked(pool, entries, inBlock, size, sigOps, count, fees)
    ensures inBlock <= pool.txs && Closed(pool, inBlock) && size >= RESERVED_SIZE
  {
    hide Linked, CachedRight;
    OrderCloses(pool, entries);
    TotalNonnegative(pool.size, inBlock);
  }

  lemma BookedKeys(pool: Pool, block: set<Tx>, mod: Modified, package: set<Tx>)
    requires Shaped(pool) && Covers(pool, block, mod)
    ensures Without(mod, package).Keys <= pool.txs && Without(mod, package).Keys !! package
  {
    hide CoversEntry;
  }

  lemma BlockGrows(txs: set<Tx>, block: set<Tx>, block': set<Tx>, t: Tx)
    requires block <= block' && t in txs && t in block' && t !in block
    ensures |txs - block'| < |txs - block|
  {
    assert t in txs - block && t !in txs - block';
    SubsetSize(txs - block', txs - block);
  }

  lemma SizesKnown(pool: Pool)
    requires Shaped(pool)
    ensures pool.size.Keys == pool.txs
  {
  }

  lemma NoTotal(f: map<Tx, int>, s: set<Tx>)
    ensures Total(f, s - s) == 0
  {
    assert s - s == {};
  }

  lemma PartTotal(pool: Pool, package: set<Tx>, todo: set<Tx>, it: Tx)
    requires Shaped(pool) && Figured(pool) && todo <= package <= pool.txs && it in todo
    ensures Total(pool.size, package - (todo - {it})) == Total(pool.size, package - todo) + pool.size[it]
    ensures Total(pool.size, package - (todo - {it})) <= Total(pool.size, package)
  {
    hide CachedRight;
    var done, rest := package - todo, todo - {it};
    assert package - rest == done + {it};
    assert done + {it} + rest == package;
    TotalAdd(pool.size, done, it);
    TotalUnion(pool.size, done + {it}, rest);
    TotalNonnegative(pool.size, rest);
  }

  lemma FiguresKnown(pool: Pool, t: Tx)
    requires Shaped(pool) && t in pool.txs
    ensures t in pool.cached && t in pool.ancestors && pool.ancestors[t] <= pool.txs
  {
  }

  lemma BookedSet(pool: Pool, entries: seq<Tx>, inBlock: set<Tx>, size: int, sigOps: int, count: int, fees: int)
    requires Shaped(pool) && Booked(pool, entries, inBlock, size, sigOps, count, fees)
    ensures inBlock == Elems(entries)
  {
  }

  lemma MissingApart(pool: Pool, block: set<Tx>, iter: Tx)
    requires iter in pool.ancestors
    ensures Missing(pool, block, iter) !! block
  {
  }

  lemma NextOfPackage(pool: Pool, block: set<Tx>, iter: Tx, sorted: seq<Tx>, i: nat)
    requires Shaped(pool) && iter in pool.txs && NoRepeats(sorted) && i < |sorted|
    requires Elems(sorted) == Missing(pool, block, iter)
    ensures sorted[i] in pool.txs && sorted[i] !in block + Elems(sorted[..i])
    ensures Elems(sorted[..i + 1]) == Elems(sorted[..i]) + {sorted[i]}
  {
    assert sorted[i] in Elems(sorted);
    assert sorted[..i + 1] == sorted[..i] + [sorted[i]];
  }

  lemma BookedTotals(pool: Pool, entries: seq<Tx>, block: set<Tx>, added: set<Tx>, size: int, sigOps: int, count: int,
                     fees: int, entries': seq<Tx>, size': int, sigOps': int, count': int, fees': int)
    requires Shaped(pool) && added !! block
    requires Booked(pool, entries, block, size, sigOps, count, fees)
    requires Booked(pool, entries', block + added, size', sigOps', count', fees')
    ensures size' == size + Total(pool.size, added) && sigOps' == sigOps + Total(pool.sigOps, added)
  {
    TotalUnion(pool.size, block, added);
    TotalUnion(pool.sigOps, block, added);
  }

  /** The member of a package with the fewest ancestors, by id among equals. */
  method LeastAncestors(pool: Pool, package: set<Tx>) returns (least: Tx)
    requires Shaped(pool) && package != {} && package <= pool.txs
    ensures least in package
    ensures forall t :: t in package ==> |pool.ancestors[least]| <= |pool.ancestors[t]|
    ensures forall t :: t in package && |pool.ancestors[least]| == |pool.ancestors[t]| ==> least <= t
  {
    least :| least in package;
    var todo := package - {least};
    while todo != {}
      invariant todo <= package && least in package
      invariant forall t :: t in package - todo ==> |pool.ancestors[least]| <= |pool.ancestors[t]|
      invariant forall t :: t in package - todo && |pool.ancestors[least]| == |pool.ancestors[t]| ==> least <= t
      decreases |todo|
    {
      var t :| t in todo;
      todo := todo - {t};
      if |pool.ancestors[t]| < |pool.ancestors[least]| ||
         (|pool.ancestors[t]| == |pool.ancestors[least]| && t < least) {
        least := t;
      }
    }
  }

  /** The package in an order valid for a block. */
  method SortForBlock(pool: Pool, package: set<Tx>) returns (sortedEntries: seq<Tx>)
    requires Shaped(pool) && package <= pool.txs
    ensures NoRepeats(sortedEntries) && Elems(sortedEntries) == package
    ensures SortedByAncestors(pool, sortedEntries)
    ensures forall i, j :: 0 <= i < j < |sortedEntries| ==> Precedes(pool, sortedEntries[i], sortedEntries[j])
  {
    hide Shaped, Sorting, Precedes, Elems;
    sortedEntries := [];
    var todo := package;
    NothingSorted(pool, package);
    while todo != {}
      invariant todo <= package && Sorting(pool, package, todo, sortedEntries)
      decreases |todo|
    {
      var t := LeastAncestors(pool, todo);
      SortOne(pool, package, todo, sortedEntries, t);
      sortedEntries := sortedEntries + [t];
      todo := todo - {t};
    }
    AllSorted(pool, sortedEntries, package);
  }

  /** The sorted part so far precedes everything still to be sorted. */
  predicate Sorting(pool: Pool, package: set<Tx>, todo: set<Tx>, sorted: seq<Tx>)
    requires Shaped(pool)
  {
    && Elems(sorted) == package - todo
    && (forall i, t :: 0 <= i < |sorted| && t in todo ==> Precedes(pool, sorted[i], t))
    && forall i, j :: 0 <= i < j < |sorted| ==> Precedes(pool, sorted[i], sorted[j])
  }

  lemma NothingSorted(pool: Pool, package: set<Tx>)
    requires Shaped(pool)
    ensures Sorting(pool, package, package, [])
  {
  }

  lemma SortOne(pool: Pool, package: set<Tx>, todo: set<Tx>, sorted: seq<Tx>, t: Tx)
    requires Shaped(pool) && todo <= package <= pool.txs && t in todo && Sorting(pool, package, todo, sorted)
    requires forall u :: u in todo ==> |pool.ancestors[t]| <= |pool.ancestors[u]|
    requires forall u :: u in todo && |pool.ancestors[t]| == |pool.ancestors[u]| ==> t <= u
    ensures Sorting(pool, package, todo - {t}, sorted + [t])
  {
    hide Precedes;
    forall u | u in todo && u != t ensures Precedes(pool, t, u) { LeastPrecedes(pool, todo, t, u); }
    assert Elems(sorted + [t]) == Elems(sorted) + {t};
  }

  lemma LeastPrecedes(pool: Pool, package: set<Tx>, least: Tx, t: Tx)
    requires Shaped(pool) && package <= pool.txs && least in package && t in package && t != least
    requires |pool.ancestors[least]| <= |pool.ancestors[t]|
    requires |pool.ancestors[least]| == |pool.ancestors[t]| ==> least <= t
    ensures Precedes(pool, least, t)
  {
  }

  lemma AllSorted(pool: Pool, sorted: seq<Tx>, package: set<Tx>)
    requires Shaped(pool) && package <= pool.txs && Sorting(pool, package, {}, sorted)
    ensures NoRepeats(sorted) && Elems(sorted) == package && SortedByAncestors(pool, sorted)
    ensures forall i, j :: 0 <= i < j < |sorted| ==> Precedes(pool, sorted[i], sorted[j])
  {
    forall i | 0 <= i < |sorted| ensures sorted[i] in pool.txs { assert sorted[i] in Elems(sorted); }
    forall i, j | 0 <= i < j < |sorted|
      ensures sorted[i] != sorted[j] && |pool.ancestors[sorted[i]]| <= |pool.ancestors[sorted[j]]|
    {
      assert Precedes(pool, sorted[i], sorted[j]);
    }
  }

  predicate Precedes(pool: Pool, a: Tx, b: Tx)
    requires pool.ancestors.Keys == pool.txs
  {
    a in pool.txs && b in pool.txs &&
    (|pool.ancestors[a]| < |pool.ancestors[b]| || (|pool.ancestors[a]| == |pool.ancestors[b]| && a < b))
  }
}
