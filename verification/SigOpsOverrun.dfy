/** A pool for which the signature operations of a new block exceed the allowance of its size, at
    every limit above a megabyte and one.  A transaction fails as a modified entry, and its entry is
    made again from figures that count a parent already in the block: the size it is tested with
    reaches the next megabyte, the size it has does not. */
module SigOpsOverrun {
  import opened MempoolGraph
  import opened ModifiedSet
  import opened PackageSelection
  import opened BlockAssembler

  /** Transaction 2 spends 0 and 1. */
  const SIZES := map[0 := 1000, 1 := 1000, 2 := 996_001]
  const SIGOPS := map[0 := 0, 1 := 1, 2 := 20_000]
  const FEES := map[0 := 10_000, 1 := 1000, 2 := 4_980_005]
  const LINKS := map[0 := {}, 1 := {}, 2 := {0, 1}]

  const POOL := Pool({0, 1, 2}, LINKS, LINKS, SIZES, SIGOPS, FEES, FEES,
    map[0 := Figures(1000, 10_000, 0), 1 := Figures(1000, 1000, 1), 2 := Figures(998_001, 4_991_005, 20_001)])

  const ORDER := [0, 2, 1]

  /** The tables after each round: 0 is taken, 2 is skipped in the pool's order, 2 fails as a modified
      entry, 1 is taken, and 2 is taken with figures that still count 0. */
  function At(i: nat): Tables
    requires i <= 5
  {
    if i == 0 then Tables(0, map[], {}, 0, {})
    else if i == 1 then Tables(1, map[2 := Figures(997_001, 4_981_005, 20_001)], {}, 0, {0})
    else if i == 2 then Tables(2, map[2 := Figures(997_001, 4_981_005, 20_001)], {}, 0, {0})
    else if i == 3 then Tables(2, map[], {2}, 1, {0})
    else if i == 4 then Tables(3, map[2 := Figures(997_001, 4_990_005, 20_000)], {2}, 0, {0, 1})
    else Tables(3, map[], {2}, 0, {0, 1, 2})
  }

  ghost predicate Lenient(config: Config) {
    && config.limit > ONE_MEGABYTE + 1 && config.priorityPercentage == 0
    && (forall n :: config.minFee(n) <= 0) && forall t :: config.isFinal(t)
  }

  // ---------------------------------------------------------------- the pool

  lemma TotalNone(f: map<Tx, int>)
    ensures Total(f, {}) == 0
  {
  }

  lemma TotalOne(f: map<Tx, int>, a: Tx)
    requires a in f
    ensures Total(f, {a}) == f[a]
  {
    TotalAdd(f, {}, a);
    assert {} + {a} == {a};
  }

  lemma TotalTwo(f: map<Tx, int>, a: Tx, b: Tx)
    requires a in f && b in f && a != b
    ensures Total(f, {a, b}) == f[a] + f[b]
  {
    TotalOne(f, a);
    TotalAdd(f, {a}, b);
    assert {a} + {b} == {a, b};
  }

  lemma TotalThree(f: map<Tx, int>)
    requires {0, 1, 2} <= f.Keys
    ensures Total(f, {0, 1, 2}) == f[0] + f[1] + f[2]
  {
    TotalTwo(f, 0, 1);
    TotalAdd(f, {0, 1}, 2);
    assert {0, 1} + {2} == {0, 1, 2};
  }

  lemma PoolShaped()
    ensures Shaped(POOL) && Unadjusted(POOL)
  {
  }

  lemma Families()
    ensures Family(POOL, 0) == {0} && Family(POOL, 1) == {1} && Family(POOL, 2) == {0, 1, 2}
  {
  }

  lemma PoolFigured()
    ensures Shaped(POOL) && Figured(POOL)
  {
    PoolShaped();
    Families();
    hide Family, Total;
    TotalOne(SIZES, 0);
    TotalOne(SIZES, 1);
    TotalThree(SIZES);
    TotalOne(SIGOPS, 0);
    TotalOne(SIGOPS, 1);
    TotalThree(SIGOPS);
    TotalOne(FEES, 0);
    TotalOne(FEES, 1);
    TotalThree(FEES);
  }

  lemma PoolValid()
    ensures Valid(POOL)
  {
    hide Figured;
    PoolFigured();
    PoolRelated();
    hide Shaped, Related, Linked;
  }

  lemma PoolRelated()
    ensures Shaped(POOL) && Related(POOL) && Linked(POOL)
  {
  }

  lemma PoolOrdered()
    ensures Ordered(POOL, ORDER)
  {
    assert Elems(ORDER) == {0, 1, 2} by {
      assert ORDER[0] == 0 && ORDER[1] == 2 && ORDER[2] == 1;
    }
  }

  // ---------------------------------------------------------------- the rounds

  lemma Blocks()
    ensures Shaped(POOL)
    ensures SizeOf(POOL, {}) == 1000 && SizeOf(POOL, {0}) == 2000 && SizeOf(POOL, {0, 1}) == 3000
    ensures SizeOf(POOL, {0, 1, 2}) == 999_001 && SigOpsOf(POOL, {0, 1, 2}) == 20_101
    ensures SigOpsOf(POOL, {}) == SigOpsOf(POOL, {0}) == 100 && SigOpsOf(POOL, {0, 1}) == 101
  {
    PoolShaped();
    hide Total;
    TotalNone(SIZES);
    TotalOne(SIZES, 0);
    TotalTwo(SIZES, 0, 1);
    TotalThree(SIZES);
    TotalNone(SIGOPS);
    TotalOne(SIGOPS, 0);
    TotalTwo(SIGOPS, 0, 1);
    TotalThree(SIGOPS);
  }

  lemma Packages()
    ensures Missing(POOL, {}, 0) == {0} && Missing(POOL, {0}, 1) == {1} && Missing(POOL, {0, 1}, 2) == {2}
  {
  }

  /** The allowance is the same up to a megabyte, and doubles above it. */
  lemma Allowances()
    ensures MaxSigOps(2000) == MaxSigOps(3000) == MaxSigOps(999_001) == 20_000 && MaxSigOps(1_000_001) == 40_000
  {
  }

  lemma Takes(config: Config)
    requires Lenient(config)
    ensures Shaped(POOL)
    ensures Admits(POOL, config, {}, 0, Base(POOL, map[], 0)) && Admits(POOL, config, {0}, 1, Base(POOL, map[], 1))
    ensures Admits(POOL, config, {0, 1}, 2, At(4).mod[2])
    ensures !Room(POOL, config, {0}, At(2).mod[2])
  {
    Blocks();
    Allowances();
    hide SizeOf, SigOpsOf, MaxSigOps, Missing;
  }

  /** Only what depends on a transaction just taken is in the table, lowered for it alone. */
  lemma LoweredTwo(t: Tx, mod: Modified)
    requires Shaped(POOL) && (t == 0 || t == 1) && Lowered(POOL, map[], {t}, {t}, mod)
    ensures mod == map[2 := Figures(997_001, 4_991_005 - FEES[t], 20_001 - SIGOPS[t])]
  {
    assert Included(POOL, {t}, 0) == {} && Included(POOL, {t}, 1) == {} && Included(POOL, {t}, 2) == {t};
    hide Included, Total;
    TotalOne(SIZES, t);
    TotalOne(SIGOPS, t);
    TotalOne(FEES, t);
    assert mod.Keys == {2};
    assert LoweredEntry(POOL, map[], {t}, 2, mod[2]);
  }

  lemma LoweredNone(start: set<Tx>, mod: Modified)
    requires Shaped(POOL) && (start == {} || start == {2}) && Lowered(POOL, map[], start, start, mod)
    ensures mod == map[]
  {
    assert Included(POOL, start, 0) == {} && Included(POOL, start, 1) == {} && Included(POOL, start, 2) == {};
    hide Included, LoweredEntry;
    assert mod.Keys == {};
  }

  lemma NothingLeft()
    ensures Without(map[], {0}) == map[] && Without(map[], {1}) == map[] && Without(At(4).mod, {2}) == map[]
    ensures Without(At(2).mod, {2}) == map[]
  {
  }

  lemma Follow0(config: Config, t: Tx, st: Tables, stop: bool, added: bool)
    requires Shaped(POOL) && Lenient(config) && t == 0 && st.mi == 1
    requires Considered(POOL, config, At(0), t, st, stop, added)
    ensures st == At(1) && !stop
  {
    hide Lowered, Missing, Admits, Room, SizeOf;
    Takes(config);
    Packages();
    NothingLeft();
    LoweredTwo(0, st.mod);
  }

  lemma Follow2(config: Config, t: Tx, st: Tables, stop: bool, added: bool)
    requires Shaped(POOL) && Lenient(config) && t == 2 && st.mi == 2
    requires Considered(POOL, config, At(2), t, st, stop, added)
    ensures st == At(3) && !stop
  {
    hide Lowered, Missing, Room, SizeOf;
    Takes(config);
    NothingLeft();
  }

  lemma Follow3(config: Config, t: Tx, st: Tables, stop: bool, added: bool)
    requires Shaped(POOL) && Lenient(config) && t == 1 && st.mi == 3
    requires Considered(POOL, config, At(3), t, st, stop, added)
    ensures st == At(4) && !stop
  {
    hide Lowered, Missing, Admits, Room, SizeOf;
    Takes(config);
    Packages();
    NothingLeft();
    LoweredTwo(1, st.mod);
    assert {0} + {1} == {0, 1};
  }

  lemma Follow4(config: Config, t: Tx, st: Tables, stop: bool, added: bool)
    requires Shaped(POOL) && Lenient(config) && t == 2 && st.mi == 3
    requires Considered(POOL, config, At(4), t, st, stop, added)
    ensures st == At(5) && !stop
  {
    hide Lowered, Missing, Admits, Room, SizeOf;
    Takes(config);
    Packages();
    NothingLeft();
    LoweredNone({2}, st.mod);
    assert {0, 1} + {2} == {0, 1, 2};
  }

  /** Which transaction each round considers. */
  lemma ChosenIs(i: nat, t: Tx)
    requires Shaped(POOL) && Ordered(POOL, ORDER) && i < 5 && i != 1 && Chosen(POOL, ORDER, At(i), t)
    ensures t == if i == 0 then 0 else if i == 3 then 1 else 2
  {
    if i == 2 && t == 1 {
      assert 2 in At(2).mod && Better(At(2).mod[2], 2, Base(POOL, At(2).mod, 1), 1);
    }
  }

  /** Every round does what the table above says, and none of them is the last. */
  lemma Follow(config: Config, i: nat, st: Tables, stop: bool)
    requires Shaped(POOL) && Ordered(POOL, ORDER) && Lenient(config) && i < 5 && At(i).block <= POOL.txs
    requires Round(POOL, config, ORDER, At(i), st, stop)
    ensures st == At(i + 1) && !stop
  {
    hide Foremost, Considered, Ordered, Lenient;
    if i == 1 {
      assert Skips(ORDER, At(1));
    } else {
      assert !Skips(ORDER, At(i));
      var t, added :| Chosen(POOL, ORDER, At(i), t) && Considered(POOL, config, At(i), t, st, stop, added)
                      && st.mi == if t in At(i).mod then At(i).mi else At(i).mi + 1;
      ChosenIs(i, t);
      if i == 0 { Follow0(config, t, st, stop, added); }
      else if i == 2 { Follow2(config, t, st, stop, added); }
      else if i == 3 { Follow3(config, t, st, stop, added); }
      else { Follow4(config, t, st, stop, added); }
    }
  }

  lemma {:induction false} RoundsAre(config: Config, trace: seq<Tables>, k: nat)
    requires Shaped(POOL) && Ordered(POOL, ORDER) && Lenient(config) && k < |trace|
    requires Rounds(POOL, config, ORDER, trace) && trace[0] == At(0)
    ensures k <= 5 && trace[k] == At(k)
  {
    hide Lenient, Ordered, Round;
    if k > 0 {
      RoundsAre(config, trace, k - 1);
      assert !Over(ORDER, trace[k - 1]);
      Follow(config, k - 1, trace[k], false);
    }
  }

  /** Every run of the selection on this pool ends with all three transactions in the block. */
  lemma RunsTakeAll(config: Config, trace: seq<Tables>, end: set<Tx>)
    requires Shaped(POOL) && Ordered(POOL, ORDER) && Lenient(config) && Traced(POOL, config, ORDER, {}, trace, end)
    ensures end == {0, 1, 2}
  {
    hide Lenient, Ordered, Round, Rounds, Lowered;
    LoweredNone({}, trace[0].mod);
    var last := |trace| - 1;
    if Over(ORDER, trace[last]) && Rounds(POOL, config, ORDER, trace) {
      RoundsAre(config, trace, last);
    } else {
      RoundsAre(config, trace[..last], last - 1);
      Follow(config, last - 1, trace[last], true);
    }
  }

  /** For every limit above a megabyte and one: a block of this pool holds more signature operations
      than the network allows a block of its size, even without those reserved for the coinbase. */
  method Overrun(config: Config) returns (assembler: Assembler)
    requires Lenient(config)
    ensures fresh(assembler) && assembler.pool == POOL && assembler.config == config
    ensures assembler.Inv() && !assembler.SigOpsFit()
    ensures assembler.nBlockSigOps - RESERVED_SIGOPS > MaxSigOps(assembler.nBlockSize)
  {
    hide Valid, Ordered, Traced, Lenient, Picked, Refusals, Ends, NoneFailed;
    PoolValid();
    PoolOrdered();
    LenientLimit(config);
    assembler := new Assembler(POOL, ORDER, config);
    hide *;
    var block;
    ghost var turns, enough, priority, log, ending, trace;
    block, turns, enough, priority, log, ending, trace := assembler.CreateNewBlock();
    PoolShaped();
    RunsTakeAll(config, trace, assembler.inBlock);
    BreaksAllowance(assembler);
  }

  lemma LenientLimit(config: Config)
    requires Lenient(config)
    ensures config.limit > ONE_MEGABYTE + 1 && config.priorityPercentage == 0
  {
  }

  lemma BreaksAllowance(assembler: Assembler)
    requires assembler.Inv() && assembler.pool == POOL && assembler.inBlock == {0, 1, 2}
    ensures !assembler.SigOpsFit()
    ensures assembler.nBlockSigOps - RESERVED_SIGOPS > MaxSigOps(assembler.nBlockSize)
  {
    assembler.Limits();
    Blocks();
    Allowances();
    TakenAll(assembler);
    hide Valid, Ordered, Booked, ParentsFirst, MaxSigOps, SizeOf, SigOpsOf;
  }

  lemma TakenAll(assembler: Assembler)
    requires assembler.Inv() && assembler.inBlock == {0, 1, 2}
    ensures assembler.entries != []
  {
    hide Valid, Ordered, ParentsFirst, MaxSigOps;
    assert 0 in assembler.inBlock;
  }
}
