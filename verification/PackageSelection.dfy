/** What package selection promises: a log of the packages picked and of those refused, and what
    it says about the order they were considered in and about what is left when selection ends. */
module PackageSelection {
  import opened MempoolGraph
  import opened ModifiedSet

  const RESERVED_SIZE := 1000
  const RESERVED_SIGOPS := 100
  const ONE_MEGABYTE := 1_000_000
  const SIGOPS_PER_MB := 20_000
  const MAX_CONSECUTIVE_FAILURES := 1000

  /** The signature operations a block of this size may hold. */
  function MaxSigOps(size: int): int { (1 + (size - 1) / ONE_MEGABYTE) * SIGOPS_PER_MB }

  /** Twenty thousand for every megabyte that is begun. */
  lemma MaxSigOpsIs(size: int, megabytes: int)
    requires (megabytes - 1) * 1_000_000 < size <= megabytes * 1_000_000
    ensures MaxSigOps(size) == 20_000 * megabytes
  {
  }

  lemma MaxSigOpsGrows(a: int, b: int)
    requires 1 <= a <= b
    ensures MaxSigOps(a) <= MaxSigOps(b)
  {
  }

  datatype Config = Config(limit: int, priorityPercentage: nat, minFee: int -> int,
                           isFinal: Tx -> bool, priority: Tx -> real, freeThreshold: real)

  // ---------------------------------------------------------------- fee rates

  /** A pays a higher fee rate than B; equal rates are ordered by id. */
  predicate Better(a: Figures, ta: Tx, b: Figures, tb: Tx) {
    a.fees * b.size > b.fees * a.size || (a.fees * b.size == b.fees * a.size && ta < tb)
  }

  lemma Scale(x: int, y: int, k: int)
    requires k > 0
    ensures x * k >= y * k <==> x >= y
  {
  }

  lemma BetterTransitive(a: Figures, ta: Tx, b: Figures, tb: Tx, c: Figures, tc: Tx)
    requires a.size > 0 && b.size > 0 && c.size > 0
    requires Better(a, ta, b, tb) && Better(b, tb, c, tc)
    ensures Better(a, ta, c, tc)
  {
    var ab, ba, bc, cb := a.fees * b.size, b.fees * a.size, b.fees * c.size, c.fees * b.size;
    var ac, ca := a.fees * c.size, c.fees * a.size;
    assert ac * b.size == ab * c.size;
    assert ba * c.size == bc * a.size;
    assert cb * a.size == ca * b.size;
    Scale(ab, ba, c.size);
    Scale(ba, ab, c.size);
    Scale(bc, cb, a.size);
    Scale(cb, bc, a.size);
    Scale(ac, ca, b.size);
    Scale(ca, ac, b.size);
  }

  lemma BetterTotal(a: Figures, ta: Tx, b: Figures, tb: Tx)
    requires ta != tb
    ensures Better(a, ta, b, tb) <==> !Better(b, tb, a, ta)
  {
  }

  /** What a package pays for each byte. */
  function Rate(f: Figures): real
    requires f.size > 0
  {
    f.fees as real / f.size as real
  }

  lemma CrossMultiplied(x: real, y: real, m: real, n: real)
    requires m > 0.0 && n > 0.0
    ensures x * n > y * m <==> x / m > y / n
    ensures x * n == y * m <==> x / m == y / n
  {
    var p, q := x / m, y / n;
    assert x == p * m && y == q * n;
    assert x * n == p * (m * n) && y * m == q * (m * n);
  }

  /** The comparison of products is the comparison of the rates themselves, without rounding. */
  lemma BetterIff(a: Figures, ta: Tx, b: Figures, tb: Tx)
    requires a.size > 0 && b.size > 0
    ensures Better(a, ta, b, tb) <==> Rate(a) > Rate(b) || (Rate(a) == Rate(b) && ta < tb)
  {
    var x, y, m, n := a.fees as real, b.fees as real, a.size as real, b.size as real;
    CrossMultiplied(x, y, m, n);
    assert (a.fees * b.size) as real == x * n && (b.fees * a.size) as real == y * m;
  }

  /** The pool's order by fee rate with ancestors: every transaction once, best first. */
  predicate Ordered(pool: Pool, order: seq<Tx>) {
    && NoRepeats(order) && Elems(order) == pool.txs
    && (forall i :: 0 <= i < |order| ==> order[i] in pool.cached)
    && forall i, j :: 0 <= i < j < |order| ==>
         Better(pool.cached[order[i]], order[i], pool.cached[order[j]], order[j])
  }

  predicate PositiveSizes(mod: Modified) {
    forall d :: d in mod ==> mod[d].size > 0
  }

  /** Nothing left to consider pays a higher fee rate than `f`, the figures of `iter`. */
  predicate Foremost(pool: Pool, order: seq<Tx>, mi: nat, mod: Modified, iter: Tx, f: Figures)
    requires Ordered(pool, order)
  {
    && (forall d :: d in mod && d != iter ==> !Better(mod[d], d, f, iter))
    && forall j :: mi <= j < |order| && order[j] != iter ==> !Better(pool.cached[order[j]], order[j], f, iter)
  }

  predicate PositiveCache(pool: Pool) { forall t :: t in pool.cached ==> pool.cached[t].size > 0 }

  lemma CachedPositive(pool: Pool)
    requires Shaped(pool) && Figured(pool)
    ensures PositiveCache(pool)
  {
    hide CachedRight, Related;
    forall t | t in pool.cached ensures pool.cached[t].size > 0 {
      assert CachedRight(pool, t);
      OnePositive(pool, t);
    }
  }

  lemma OnePositive(pool: Pool, t: Tx)
    requires Shaped(pool) && Figured(pool) && t in pool.txs && CachedRight(pool, t)
    ensures pool.cached[t].size > 0
  {
    hide Total, Related;
    var others := Family(pool, t) - {t};
    assert others + {t} == Family(pool, t);
    TotalAdd(pool.size, others, t);
    TotalNonnegative(pool.size, others);
  }

  lemma InOrder(pool: Pool, order: seq<Tx>, i: nat)
    requires Ordered(pool, order) && i < |order|
    ensures order[i] in pool.txs && order[i] in pool.cached
  {
    assert order[i] in Elems(order);
  }

  lemma ForemostModified(pool: Pool, order: seq<Tx>, mi: nat, mod: Modified, best: Tx)
    requires Ordered(pool, order) && PositiveCache(pool) && PositiveSizes(mod) && mi <= |order| && best in mod
    requires forall d :: d in mod && d != best ==> Better(mod[best], best, mod[d], d)
    requires mi < |order| ==> order[mi] !in mod && Better(mod[best], best, pool.cached[order[mi]], order[mi])
    ensures Foremost(pool, order, mi, mod, best, mod[best])
  {
    hide Better;
    forall d | d in mod && d != best ensures !Better(mod[d], d, mod[best], best) {
      BetterTotal(mod[best], best, mod[d], d);
    }
    forall j | mi <= j < |order| && order[j] != best
      ensures !Better(pool.cached[order[j]], order[j], mod[best], best)
    {
      if j > mi {
        BetterTransitive(mod[best], best, pool.cached[order[mi]], order[mi], pool.cached[order[j]], order[j]);
      }
      BetterTotal(mod[best], best, pool.cached[order[j]], order[j]);
    }
  }

  lemma ForemostAlone(pool: Pool, order: seq<Tx>, mi: nat, mod: Modified)
    requires Ordered(pool, order) && mi < |order| && mod.Keys == {}
    ensures Foremost(pool, order, mi, mod, order[mi], pool.cached[order[mi]])
  {
    hide Better;
    forall j | mi <= j < |order| && order[j] != order[mi]
      ensures !Better(pool.cached[order[j]], order[j], pool.cached[order[mi]], order[mi])
    {
      BetterTotal(pool.cached[order[mi]], order[mi], pool.cached[order[j]], order[j]);
    }
  }

  lemma ForemostPooled(pool: Pool, order: seq<Tx>, mi: nat, mod: Modified, best: Tx)
    requires Ordered(pool, order) && PositiveCache(pool) && PositiveSizes(mod) && mi < |order|
    requires best in mod && order[mi] !in mod
    requires forall d :: d in mod && d != best ==> Better(mod[best], best, mod[d], d)
    requires !Better(mod[best], best, pool.cached[order[mi]], order[mi])
    ensures Foremost(pool, order, mi, mod, order[mi], pool.cached[order[mi]])
  {
    hide Better;
    var it := order[mi];
    ForemostAlone(pool, order, mi, map[]);
    forall d | d in mod && d != it ensures !Better(mod[d], d, pool.cached[it], it) {
      if d != best && Better(mod[d], d, pool.cached[it], it) {
        BetterTransitive(mod[best], best, mod[d], d, pool.cached[it], it);
      }
    }
  }

  /** Whatever is chosen, its figures cover what is missing, exactly so if it never failed. */
  lemma FiguresCover(pool: Pool, block: set<Tx>, mod: Modified, failed: set<Tx>, iter: Tx)
    requires Valid(pool) && Covers(pool, block, mod) && Exact(pool, block, mod, failed)
    requires iter in pool.txs && iter !in block && (iter !in mod ==> iter !in failed)
    ensures CoversEntry(pool, block, iter, Base(pool, mod, iter))
    ensures iter !in failed ==> ExactEntry(pool, block, iter, Base(pool, mod, iter))
  {
    hide Related, Linked, Figured, CoversEntry, ExactEntry;
    CachedCovers(pool, block, iter);
  }

  lemma MissingIs(pool: Pool, block: set<Tx>, iter: Tx, package: set<Tx>)
    requires Shaped(pool) && iter in pool.txs && iter !in block && package == pool.ancestors[iter] - block + {iter}
    ensures package == Missing(pool, block, iter) && package <= pool.txs
  {
  }

  // ---------------------------------------------------------------- what a package needs

  /** The size and signature operations of a block with these transactions. */
  ghost function SizeOf(pool: Pool, block: set<Tx>): int
    requires Shaped(pool) && block <= pool.txs
  {
    RESERVED_SIZE + Total(pool.size, block)
  }

  ghost function SigOpsOf(pool: Pool, block: set<Tx>): int
    requires Shaped(pool) && block <= pool.txs
  {
    RESERVED_SIGOPS + Total(pool.sigOps, block)
  }

  /** The true figures of a transaction with the ancestors the block lacks. */
  ghost function Needs(pool: Pool, block: set<Tx>, t: Tx): Figures
    requires Shaped(pool) && t in pool.txs
  {
    var missing := Missing(pool, block, t);
    Figures(Total(pool.size, missing), Total(pool.modFee, missing), Total(pool.sigOps, missing))
  }

  ghost predicate Room(pool: Pool, config: Config, block: set<Tx>, f: Figures)
    requires Shaped(pool) && block <= pool.txs
  {
    && SizeOf(pool, block) + f.size < config.limit
    && SigOpsOf(pool, block) + f.sigOps < MaxSigOps(SizeOf(pool, block) + f.size)
  }

  /** There is room for the figures, and all that is missing is final. */
  ghost predicate Admits(pool: Pool, config: Config, block: set<Tx>, t: Tx, f: Figures)
    requires Shaped(pool) && block <= pool.txs && t in pool.txs
  {
    Room(pool, config, block, f) && forall u :: u in Missing(pool, block, t) ==> config.isFinal(u)
  }

  /** G pays less for each byte than F, or the same under a later id. */
  predicate Follows(g: Figures, u: Tx, f: Figures, t: Tx) {
    g.size > 0 && f.size > 0 && (Rate(g) < Rate(f) || (Rate(g) == Rate(f) && t < u))
  }

  /** Everything that is left and was never refused pays a lower rate for what it needs, or the same
      under a later id, if no fee has been adjusted. */
  ghost predicate Leads(pool: Pool, block: set<Tx>, refused: set<Tx>, t: Tx, f: Figures)
    requires Shaped(pool)
  {
    Unadjusted(pool) ==> forall u :: u in pool.txs && u !in block && u !in refused && u != t ==>
      Follows(Needs(pool, block, u), u, f, t)
  }

  lemma NotBetterFollows(g: Figures, u: Tx, f: Figures, t: Tx)
    requires g.size > 0 && f.size > 0 && u != t && !Better(g, u, f, t)
    ensures Follows(g, u, f, t)
  {
    hide Better, Rate;
    BetterIff(g, u, f, t);
  }

  lemma NeedsSomething(pool: Pool, block: set<Tx>, t: Tx)
    requires Shaped(pool) && Figured(pool) && t in pool.txs && t !in block
    ensures Needs(pool, block, t).size > 0
  {
    hide Total, Related;
    var others := Missing(pool, block, t) - {t};
    assert others + {t} == Missing(pool, block, t);
    TotalAdd(pool.size, others, t);
    TotalNonnegative(pool.size, others);
  }

  lemma JudgedPositive(pool: Pool, block: set<Tx>, t: Tx, f: Figures)
    requires Shaped(pool) && Figured(pool) && t in pool.txs && t !in block && CoversEntry(pool, block, t, f)
    ensures f.size > 0
  {
    hide Total, Missing, Figured;
    NeedsSomething(pool, block, t);
  }

  // ---------------------------------------------------------------- the log

  /** A package picked: its transaction, the block before, the figures used, what had been refused
      by then, and whether it had failed itself. */
  datatype Pick = Pick(t: Tx, block: set<Tx>, figures: Figures, refused: set<Tx>, failed: bool)

  /** The picks in order, and for each transaction refused the block it was refused at. */
  datatype Log = Log(picks: seq<Pick>, refused: map<Tx, set<Tx>>)

  datatype Ending = Exhausted | TooCheap(t: Tx, figures: Figures) | NearlyFull

  /** The figures are never too low, and right unless the transaction had failed. */
  ghost predicate Judged(pool: Pool, block: set<Tx>, t: Tx, f: Figures, failed: bool)
    requires Shaped(pool)
  {
    && t in pool.txs && block <= pool.txs && t !in block
    && CoversEntry(pool, block, t, f) && (!failed ==> ExactEntry(pool, block, t, f))
  }

  ghost predicate SoundPick(pool: Pool, config: Config, p: Pick)
    requires Shaped(pool)
  {
    && Judged(pool, p.block, p.t, p.figures, p.failed) && (p.failed ==> p.t in p.refused)
    && p.figures.fees >= config.minFee(p.figures.size) && Admits(pool, config, p.block, p.t, p.figures)
    && Leads(pool, p.block, p.refused, p.t, p.figures)
  }

  /** Each pick adds exactly the missing part of its package, from the block at the start to the
      block at the end. */
  ghost predicate Picked(pool: Pool, config: Config, start: set<Tx>, picks: seq<Pick>, end: set<Tx>)
    requires Shaped(pool)
    decreases |picks|
  {
    if picks == [] then end == start
    else
      var p := picks[|picks| - 1];
      && SoundPick(pool, config, p) && end == p.block + Missing(pool, p.block, p.t)
      && Picked(pool, config, start, picks[..|picks| - 1], p.block)
  }

  /** Everything refused was refused for what it really needed of the block of that moment. */
  ghost predicate Refusals(pool: Pool, config: Config, block: set<Tx>, refused: map<Tx, set<Tx>>)
    requires Shaped(pool) && block <= pool.txs
  {
    forall t :: t in refused ==> t in pool.txs && refused[t] <= block && RightlyRefused(pool, config, refused[t], t)
  }

  ghost predicate RightlyRefused(pool: Pool, config: Config, block: set<Tx>, t: Tx)
    requires Shaped(pool) && block <= pool.txs && t in pool.txs
  {
    t !in block && !Admits(pool, config, block, t, Needs(pool, block, t))
  }

  /** Whatever is neither in the block nor refused is still to be considered. */
  ghost predicate Remaining(pool: Pool, order: seq<Tx>, block: set<Tx>, mi: nat, mod: Modified, refused: set<Tx>) {
    mi <= |order| && forall t :: t in pool.txs && t !in block && t !in refused ==> t in mod || t in order[mi..]
  }

  ghost predicate Logged(pool: Pool, config: Config, order: seq<Tx>, start: set<Tx>, block: set<Tx>,
                         mi: nat, mod: Modified, failed: set<Tx>, log: Log)
    requires Shaped(pool) && block <= pool.txs
  {
    && Picked(pool, config, start, log.picks, block) && Refusals(pool, config, block, log.refused)
    && failed <= log.refused.Keys && Remaining(pool, order, block, mi, mod, log.refused.Keys)
  }

  /** What is left when selection ends: nothing that was not refused; or nothing that pays a better
      rate than a package below the minimum; or less than a thousand bytes. */
  ghost predicate Ends(pool: Pool, config: Config, block: set<Tx>, refused: set<Tx>, ending: Ending)
    requires Shaped(pool) && block <= pool.txs
  {
    match ending
    case Exhausted => pool.txs <= block + refused
    case TooCheap(t, f) =>
      && Judged(pool, block, t, f, t in refused) && f.fees < config.minFee(f.size)
      && Leads(pool, block, refused, t, f)
    case NearlyFull => SizeOf(pool, block) > config.limit - 1000
  }

  lemma StartLogged(pool: Pool, config: Config, order: seq<Tx>, block: set<Tx>, mod: Modified)
    requires Shaped(pool) && block <= pool.txs && Ordered(pool, order)
    ensures Logged(pool, config, order, block, block, 0, mod, {}, Log([], map[]))
  {
    hide Better, Shaped, RightlyRefused;
    assert order[0..] == order;
    forall t | t in pool.txs ensures t in order { assert t in Elems(order); }
  }

  lemma SkipLogged(pool: Pool, config: Config, order: seq<Tx>, start: set<Tx>, block: set<Tx>,
                   mi: nat, mod: Modified, failed: set<Tx>, log: Log)
    requires Shaped(pool) && block <= pool.txs && mi < |order|
    requires Logged(pool, config, order, start, block, mi, mod, failed, log)
    requires order[mi] in mod || order[mi] in block || order[mi] in failed
    ensures Logged(pool, config, order, start, block, mi + 1, mod, failed, log)
  {
    hide Picked, Refusals;
    assert order[mi..] == [order[mi]] + order[mi + 1..];
  }

  /** What comes foremost in the tables leads by the true figures. */
  lemma ForemostLeads(pool: Pool, order: seq<Tx>, block: set<Tx>, mi: nat, mod: Modified, failed: set<Tx>,
                      refused: set<Tx>, t: Tx, f: Figures)
    requires Valid(pool) && Ordered(pool, order) && Covers(pool, block, mod) && Exact(pool, block, mod, failed)
    requires failed <= refused && Remaining(pool, order, block, mi, mod, refused)
    requires Foremost(pool, order, mi, mod, t, f) && f.size > 0
    ensures Leads(pool, block, refused, t, f)
  {
    hide Better, Related, Linked, Figured, Covers, Exact, Missing, Follows;
    if Unadjusted(pool) {
      forall u | u in pool.txs && u !in block && u !in refused && u != t
        ensures Follows(Needs(pool, block, u), u, f, t)
      {
        FiguresCover(pool, block, mod, failed, u);
        NeedsExact(pool, block, u, Base(pool, mod, u));
        NeedsSomething(pool, block, u);
        NotBetterFollows(Needs(pool, block, u), u, f, t);
      }
    }
  }

  lemma NeedsExact(pool: Pool, block: set<Tx>, t: Tx, f: Figures)
    requires Shaped(pool) && t in pool.txs && ExactEntry(pool, block, t, f)
    ensures f.size == Needs(pool, block, t).size && f.sigOps == Needs(pool, block, t).sigOps
    ensures Unadjusted(pool) ==> f == Needs(pool, block, t)
  {
  }

  lemma RefuseLogged(pool: Pool, config: Config, order: seq<Tx>, start: set<Tx>, block: set<Tx>, mi: nat, next: nat,
                     mod: Modified, failed: set<Tx>, log: Log, t: Tx, f: Figures, mod': Modified, failed': set<Tx>)
    returns (log': Log)
    requires Shaped(pool) && block <= pool.txs && Logged(pool, config, order, start, block, mi, mod, failed, log)
    requires Judged(pool, block, t, f, t in failed) && !Admits(pool, config, block, t, f)
    requires next <= |order| && (next == mi || (next == mi + 1 && order[mi] == t))
    requires mod.Keys - {t} <= mod'.Keys && failed' <= failed + {t}
    ensures log'.picks == log.picks && Logged(pool, config, order, start, block, next, mod', failed', log')
  {
    hide Picked, Refusals, Remaining, CoversEntry, ExactEntry, Admits;
    log' := if t in log.refused then log else Log(log.picks, log.refused[t := block]);
    if t !in failed {
      RightRefusal(pool, config, block, t, f);
      RefusalAdded(pool, config, block, log.refused, t);
    }
    StillRemaining(pool, order, block, block, mi, next, mod, mod', log.refused.Keys, log'.refused.Keys, t);
  }

  lemma RefusalAdded(pool: Pool, config: Config, block: set<Tx>, refused: map<Tx, set<Tx>>, t: Tx)
    requires Shaped(pool) && block <= pool.txs && Refusals(pool, config, block, refused)
    requires t in pool.txs && RightlyRefused(pool, config, block, t)
    ensures Refusals(pool, config, block, refused[t := block])
  {
    hide RightlyRefused;
  }

  /** Taking `t` out of consideration leaves the others to be considered. */
  lemma StillRemaining(pool: Pool, order: seq<Tx>, block: set<Tx>, block': set<Tx>, mi: nat, next: nat,
                       mod: Modified, mod': Modified, refused: set<Tx>, refused': set<Tx>, t: Tx)
    requires Remaining(pool, order, block, mi, mod, refused) && block <= block' && refused <= refused'
    requires next <= |order| && (next == mi || (next == mi + 1 && order[mi] == t))
    requires (t in block' || t in refused') && mod.Keys - block' - {t} <= mod'.Keys
    ensures Remaining(pool, order, block', next, mod', refused')
  {
    if next == mi + 1 { assert order[mi..] == [order[mi]] + order[next..]; }
  }

  lemma RightRefusal(pool: Pool, config: Config, block: set<Tx>, t: Tx, f: Figures)
    requires Shaped(pool) && Judged(pool, block, t, f, false) && !Admits(pool, config, block, t, f)
    ensures RightlyRefused(pool, config, block, t)
  {
    hide Total, MaxSigOps;
    NeedsExact(pool, block, t, f);
  }

  lemma PickLogged(pool: Pool, config: Config, order: seq<Tx>, start: set<Tx>, block: set<Tx>, block': set<Tx>,
                   mi: nat, next: nat, mod: Modified, mod': Modified, failed: set<Tx>, log: Log, p: Pick)
    requires Shaped(pool) && block <= block' <= pool.txs
    requires Logged(pool, config, order, start, block, mi, mod, failed, log)
    requires p.block == block && SoundPick(pool, config, p) && block' == block + Missing(pool, block, p.t)
    requires mi <= next <= |order| && (next == mi || (next == mi + 1 && order[mi] == p.t))
    requires mod.Keys - block' <= mod'.Keys
    ensures Logged(pool, config, order, start, block', next, mod', failed, log.(picks := log.picks + [p]))
  {
    hide Picked, Refusals, Remaining, SoundPick, Missing;
    PickedKnown(pool, config, p);
    PickAdded(pool, config, start, log.picks, p, block');
    RefusalsStand(pool, config, block, block', log.refused);
    PickedItself(pool, block, p.t);
    StillRemaining(pool, order, block, block', mi, next, mod, mod', log.refused.Keys, log.refused.Keys, p.t);
  }

  lemma PickAdded(pool: Pool, config: Config, start: set<Tx>, picks: seq<Pick>, p: Pick, end: set<Tx>)
    requires Shaped(pool) && Picked(pool, config, start, picks, p.block) && SoundPick(pool, config, p)
    requires p.t in pool.txs && end == p.block + Missing(pool, p.block, p.t)
    ensures Picked(pool, config, start, picks + [p], end)
  {
    hide SoundPick, Missing;
    assert (picks + [p])[..|picks|] == picks;
  }

  lemma RefusalsStand(pool: Pool, config: Config, block: set<Tx>, block': set<Tx>, refused: map<Tx, set<Tx>>)
    requires Shaped(pool) && block <= block' <= pool.txs && Refusals(pool, config, block, refused)
    ensures Refusals(pool, config, block', refused)
  {
    hide RightlyRefused;
  }

  lemma PickedKnown(pool: Pool, config: Config, p: Pick)
    requires Shaped(pool) && SoundPick(pool, config, p)
    ensures p.t in pool.txs
  {
  }

  lemma PickedItself(pool: Pool, block: set<Tx>, t: Tx)
    requires t in pool.ancestors
    ensures t in block + Missing(pool, block, t)
  {
  }

  /** Once the tables are empty, what is not in the block was refused. */
  lemma NothingRemains(pool: Pool, config: Config, order: seq<Tx>, start: set<Tx>, block: set<Tx>, mi: nat,
                       mod: Modified, failed: set<Tx>, log: Log)
    requires Shaped(pool) && block <= pool.txs && Logged(pool, config, order, start, block, mi, mod, failed, log)
    requires mi == |order| && mod.Keys == {}
    ensures Ends(pool, config, block, log.refused.Keys, Exhausted)
  {
    hide Picked, Refusals;
  }

  ghost predicate NoneFailed(picks: seq<Pick>) {
    forall i :: 0 <= i < |picks| ==> !picks[i].failed
  }

  lemma LoggedPicks(pool: Pool, config: Config, order: seq<Tx>, start: set<Tx>, block: set<Tx>, mi: nat,
                    mod: Modified, failed: set<Tx>, log: Log)
    requires Shaped(pool) && block <= pool.txs && Logged(pool, config, order, start, block, mi, mod, failed, log)
    ensures Picked(pool, config, start, log.picks, block) && Refusals(pool, config, block, log.refused)
  {
    hide Picked, Refusals, Remaining;
  }

  lemma SoundNow(pool: Pool, config: Config, p: Pick)
    requires Shaped(pool) && Judged(pool, p.block, p.t, p.figures, p.failed) && (p.failed ==> p.t in p.refused)
    requires p.figures.fees >= config.minFee(p.figures.size) && Admits(pool, config, p.block, p.t, p.figures)
    requires Leads(pool, p.block, p.refused, p.t, p.figures)
    ensures SoundPick(pool, config, p)
  {
    hide CoversEntry, ExactEntry, Admits, Leads;
  }

  lemma CheapEnds(pool: Pool, config: Config, block: set<Tx>, failed: set<Tx>, refused: set<Tx>, t: Tx, f: Figures)
    requires Shaped(pool) && Judged(pool, block, t, f, t in failed) && failed <= refused
    requires f.fees < config.minFee(f.size) && Leads(pool, block, refused, t, f)
    ensures Ends(pool, config, block, refused, TooCheap(t, f))
  {
    hide CoversEntry, ExactEntry, Leads;
  }

  lemma WithoutOne(mod: Modified, t: Tx)
    ensures mod.Keys - {t} <= Without(mod, {t}).Keys
  {
  }

  lemma NoneFailedBefore(before: seq<Pick>, after: seq<Pick>)
    requires before <= after
    ensures NoneFailed(after) ==> NoneFailed(before)
    ensures NoneFailed(after) && |before| < |after| ==> !after[|before|].failed
  {
    forall i | 0 <= i < |before| && NoneFailed(after) ensures !before[i].failed {
      assert before[i] == after[i];
    }
  }

  // ---------------------------------------------------------------- rounds

  /** The tables of the selection loop: the position in the pool's order, the modified entries, the
      entries that failed, how many failed in a row, and the block so far. */
  datatype Tables = Tables(mi: nat, mod: Modified, failed: set<Tx>, count: nat, block: set<Tx>)

  /** A package entered the block: its entries left the table and its descendants were lowered. */
  ghost predicate LoweredFor(pool: Pool, mod: Modified, block: set<Tx>, t: Tx, mod': Modified)
    requires Shaped(pool) && t in pool.txs
  {
    var package := Missing(pool, block, t);
    Lowered(pool, Without(mod, package), package, package, mod')
  }

  /** What becomes of the tables when the package of `t` is considered. */
  ghost predicate Considered(pool: Pool, config: Config, st: Tables, t: Tx, st': Tables, stop: bool, added: bool)
    requires Shaped(pool) && st.block <= pool.txs && t in pool.txs
  {
    var f := Base(pool, st.mod, t);
    var cheap, room := f.fees < config.minFee(f.size), Room(pool, config, st.block, f);
    && (added <==> !cheap && Admits(pool, config, st.block, t, f))
    && (stop <==>
          || cheap
          || (!room && st.count >= MAX_CONSECUTIVE_FAILURES && SizeOf(pool, st.block) > config.limit - 1000))
    && st'.block == (if added then st.block + Missing(pool, st.block, t) else st.block)
    && st'.count == (if added then 0 else if cheap || room then st.count else st.count + 1)
    && st'.failed == (if added || cheap || t !in st.mod then st.failed else st.failed + {t})
    && (added ==> LoweredFor(pool, st.mod, st.block, t, st'.mod))
    && (!added ==> st'.mod == if cheap || t !in st.mod then st.mod else Without(st.mod, {t}))
  }

  lemma RoomIs(pool: Pool, config: Config, block: set<Tx>, f: Figures, size: int, sigOps: int)
    requires Shaped(pool) && block <= pool.txs && size == SizeOf(pool, block) && sigOps == SigOpsOf(pool, block)
    ensures Room(pool, config, block, f) <==>
      size + f.size < config.limit && sigOps + f.sigOps < MaxSigOps(size + f.size)
  {
    hide SizeOf, SigOpsOf, MaxSigOps;
  }

  lemma CheapStops(pool: Pool, config: Config, st: Tables, t: Tx)
    requires Shaped(pool) && st.block <= pool.txs && t in pool.txs
    requires Base(pool, st.mod, t).fees < config.minFee(Base(pool, st.mod, t).size)
    ensures Considered(pool, config, st, t, st, true, false)
  {
    hide LoweredFor, Room, Admits, SizeOf;
  }

  lemma NoRoomRefuses(pool: Pool, config: Config, st: Tables, t: Tx, st': Tables, stop: bool, room: bool)
    requires Shaped(pool) && st.block <= pool.txs && t in pool.txs && st'.block == st.block
    requires Base(pool, st.mod, t).fees >= config.minFee(Base(pool, st.mod, t).size)
    requires room == Room(pool, config, st.block, Base(pool, st.mod, t)) && !room && st'.count == st.count + 1
    requires stop <==> st'.count > MAX_CONSECUTIVE_FAILURES && SizeOf(pool, st.block) > config.limit - 1000
    requires st'.mod == if t in st.mod then Without(st.mod, {t}) else st.mod
    requires st'.failed == if t in st.mod then st.failed + {t} else st.failed
    ensures Considered(pool, config, st, t, st', stop, false)
  {
    hide LoweredFor, Room, SizeOf;
  }

  lemma RoomDecides(pool: Pool, config: Config, st: Tables, t: Tx, st': Tables, added: bool, room: bool)
    requires Shaped(pool) && st.block <= pool.txs && t in pool.txs
    requires Base(pool, st.mod, t).fees >= config.minFee(Base(pool, st.mod, t).size)
    requires room == Room(pool, config, st.block, Base(pool, st.mod, t)) && room
    requires added <==> Admits(pool, config, st.block, t, Base(pool, st.mod, t))
    requires st'.block == st.block + (if added then Missing(pool, st.block, t) else {})
    requires st'.count == if added then 0 else st.count
    requires added ==> LoweredFor(pool, st.mod, st.block, t, st'.mod) && st'.failed == st.failed
    requires !added ==> st'.mod == if t in st.mod then Without(st.mod, {t}) else st.mod
    requires !added ==> st'.failed == if t in st.mod then st.failed + {t} else st.failed
    ensures Considered(pool, config, st, t, st', false, added)
  {
    hide LoweredFor, Room, Admits, SizeOf, Missing;
  }

  lemma ConsideredFrom(pool: Pool, config: Config, st: Tables, t: Tx, st': Tables, stop: bool, added: bool, mi: nat)
    requires Shaped(pool) && st.block <= pool.txs && t in pool.txs && Considered(pool, config, st, t, st', stop, added)
    ensures Considered(pool, config, st.(mi := mi), t, st', stop, added)
  {
    hide LoweredFor, Room, Admits, SizeOf;
  }

  predicate Skips(order: seq<Tx>, st: Tables) {
    st.mi < |order| && (order[st.mi] in st.mod || order[st.mi] in st.block || order[st.mi] in st.failed)
  }

  /** The better of the next entry in order and the best modified one. */
  ghost predicate Chosen(pool: Pool, order: seq<Tx>, st: Tables, t: Tx)
    requires Shaped(pool) && Ordered(pool, order)
  {
    && t in pool.txs && t !in st.block && (t in st.mod || (st.mi < |order| && t == order[st.mi]))
    && Foremost(pool, order, st.mi, st.mod, t, Base(pool, st.mod, t))
  }

  /** One round of the loop. */
  ghost predicate Round(pool: Pool, config: Config, order: seq<Tx>, st: Tables, st': Tables, stop: bool)
    requires Shaped(pool) && Ordered(pool, order) && st.block <= pool.txs
  {
    if Skips(order, st) then st' == st.(mi := st.mi + 1) && !stop
    else exists t, added ::
      && Chosen(pool, order, st, t) && Considered(pool, config, st, t, st', stop, added)
      && st'.mi == if t in st.mod then st.mi else st.mi + 1
  }

  lemma RoundIs(pool: Pool, config: Config, order: seq<Tx>, st: Tables, t: Tx, st': Tables, stop: bool, added: bool)
    requires Shaped(pool) && Ordered(pool, order) && st.block <= pool.txs && !Skips(order, st)
    requires Chosen(pool, order, st, t) && Considered(pool, config, st, t, st', stop, added)
    requires st'.mi == if t in st.mod then st.mi else st.mi + 1
    ensures Round(pool, config, order, st, st', stop)
  {
    hide Chosen, Considered, Ordered;
  }

  predicate Over(order: seq<Tx>, st: Tables) { st.mi >= |order| && st.mod.Keys == {} }

  /** The tables at the start: everything that depends on the block is lowered for it. */
  ghost predicate Opened(pool: Pool, start: set<Tx>, st: Tables)
    requires Shaped(pool)
  {
    && start <= pool.txs && st.mi == 0 && st.failed == {} && st.count == 0 && st.block == start
    && Lowered(pool, map[], start, start, st.mod)
  }

  /** Round after round, none of them the last. */
  ghost predicate Rounds(pool: Pool, config: Config, order: seq<Tx>, trace: seq<Tables>)
    requires Shaped(pool) && Ordered(pool, order)
  {
    && (forall i :: 0 <= i < |trace| ==> trace[i].block <= pool.txs)
    && forall i :: 0 <= i < |trace| - 1 ==>
         !Over(order, trace[i]) && Round(pool, config, order, trace[i], trace[i + 1], false)
  }

  /** A whole run of the loop, from the block at the start to the block at the end. */
  ghost predicate Traced(pool: Pool, config: Config, order: seq<Tx>, start: set<Tx>, trace: seq<Tables>, end: set<Tx>)
    requires Shaped(pool) && Ordered(pool, order)
  {
    && trace != [] && Opened(pool, start, trace[0]) && trace[|trace| - 1].block == end
    && (|| (Over(order, trace[|trace| - 1]) && Rounds(pool, config, order, trace))
        || Halted(pool, config, order, trace[..|trace| - 1], trace[|trace| - 1]))
  }

  /** Rounds up to one that ends the selection. */
  ghost predicate Halted(pool: Pool, config: Config, order: seq<Tx>, trace: seq<Tables>, last: Tables)
    requires Shaped(pool) && Ordered(pool, order)
  {
    && trace != [] && Rounds(pool, config, order, trace) && trace[|trace| - 1].block <= pool.txs
    && !Over(order, trace[|trace| - 1]) && Round(pool, config, order, trace[|trace| - 1], last, true)
  }

  /** A run so far, with the tables it has led to. */
  ghost predicate Running(pool: Pool, config: Config, order: seq<Tx>, start: set<Tx>, trace: seq<Tables>, st: Tables)
    requires Shaped(pool) && Ordered(pool, order)
  {
    trace != [] && Opened(pool, start, trace[0]) && Rounds(pool, config, order, trace) && trace[|trace| - 1] == st
  }

  lemma StartRunning(pool: Pool, config: Config, order: seq<Tx>, start: set<Tx>, st: Tables)
    requires Shaped(pool) && Ordered(pool, order) && Opened(pool, start, st)
    ensures Running(pool, config, order, start, [st], st)
  {
    hide Ordered, Lowered;
  }

  lemma KeepRunning(pool: Pool, config: Config, order: seq<Tx>, start: set<Tx>, trace: seq<Tables>, st: Tables,
                    st': Tables)
    requires Shaped(pool) && Ordered(pool, order) && Running(pool, config, order, start, trace, st)
    requires !Over(order, st) && st.block <= pool.txs && st'.block <= pool.txs
    requires Round(pool, config, order, st, st', false)
    ensures Running(pool, config, order, start, trace + [st'], st')
  {
    hide Ordered, Round, Over, Opened;
  }

  lemma StopRunning(pool: Pool, config: Config, order: seq<Tx>, start: set<Tx>, trace: seq<Tables>, st: Tables,
                    st': Tables)
    requires Shaped(pool) && Ordered(pool, order) && Running(pool, config, order, start, trace, st)
    requires !Over(order, st) && st.block <= pool.txs && Round(pool, config, order, st, st', true)
    ensures Traced(pool, config, order, start, trace + [st'], st'.block)
  {
    hide Ordered, Round, Opened, Over;
    var all := trace + [st'];
    assert all[..|all| - 1] == trace;
  }

  lemma RanOut(pool: Pool, config: Config, order: seq<Tx>, start: set<Tx>, trace: seq<Tables>, st: Tables)
    requires Shaped(pool) && Ordered(pool, order) && Running(pool, config, order, start, trace, st) && Over(order, st)
    ensures Traced(pool, config, order, start, trace, st.block)
  {
    hide Ordered, Rounds, Opened;
  }

  /** What one round adds to the log. */
  lemma LogRound(pool: Pool, config: Config, order: seq<Tx>, start: set<Tx>, st: Tables, t: Tx, st': Tables, log: Log,
                 stop: bool, added: bool)
    returns (log': Log, ending: Ending)
    requires Shaped(pool) && st.block <= pool.txs && st'.block <= pool.txs && t in pool.txs
    requires Logged(pool, config, order, start, st.block, st.mi, st.mod, st.failed, log)
    requires var f := Base(pool, st.mod, t);
      && Judged(pool, st.block, t, f, t in st.failed) && Leads(pool, st.block, log.refused.Keys, t, f)
    requires st.mod.Keys <= pool.txs && st.failed <= log.refused.Keys
    requires Considered(pool, config, st, t, st', stop, added)
    requires st.mi <= st'.mi <= |order| && (st'.mi == st.mi || (st'.mi == st.mi + 1 && order[st.mi] == t))
    ensures !stop ==> Logged(pool, config, order, start, st'.block, st'.mi, st'.mod, st'.failed, log')
    ensures stop ==> Picked(pool, config, start, log'.picks, st'.block)
    ensures stop ==> Refusals(pool, config, st'.block, log'.refused)
    ensures stop ==> Ends(pool, config, st'.block, log'.refused.Keys, ending)
    ensures log'.picks == if added
      then log.picks + [Pick(t, st.block, Base(pool, st.mod, t), log.refused.Keys, t in st.failed)] else log.picks
  {
    hide Logged, Judged, Leads, SizeOf, Room, Missing, Picked, Refusals, SoundPick, Without, LoweredFor;
    var f := Base(pool, st.mod, t);
    log', ending := log, NearlyFull;
    if added {
      var p := Pick(t, st.block, f, log.refused.Keys, t in st.failed);
      SoundNow(pool, config, p);
      LoweredLeft(pool, st.mod, st.block, t, st'.mod);
      PickLogged(pool, config, order, start, st.block, st'.block, st.mi, st'.mi, st.mod, st'.mod, st.failed, log, p);
      log' := log.(picks := log.picks + [p]);
    } else if f.fees < config.minFee(f.size) {
      ending := TooCheap(t, f);
      LoggedPicks(pool, config, order, start, st.block, st.mi, st.mod, st.failed, log);
      CheapEnds(pool, config, st.block, st.failed, log.refused.Keys, t, f);
    } else {
      WithoutOne(st.mod, t);
      log' := RefuseLogged(pool, config, order, start, st.block, st.mi, st'.mi, st.mod, st.failed, log, t, f,
                           st'.mod, st'.failed);
      LoggedPicks(pool, config, order, start, st.block, st'.mi, st'.mod, st'.failed, log');
    }
  }

  lemma LoweredLeft(pool: Pool, mod: Modified, block: set<Tx>, t: Tx, mod': Modified)
    requires Shaped(pool) && t in pool.txs && mod.Keys <= pool.txs && LoweredFor(pool, mod, block, t, mod')
    ensures mod.Keys - (block + Missing(pool, block, t)) <= mod'.Keys
  {
    hide LoweredEntry;
  }

  /** Either the block grew or less is left to consider. */
  predicate Progress(txs: set<Tx>, n: nat, block: set<Tx>, block': set<Tx>, mi: nat, next: nat, mod: Modified,
                     mod': Modified) {
    |txs - block'| < |txs - block| || (block' == block && n - next + |mod'| < n - mi + |mod|)
  }

  lemma RoundProgress(pool: Pool, config: Config, n: nat, st: Tables, t: Tx, st': Tables, added: bool)
    requires Shaped(pool) && st.block <= pool.txs && t in pool.txs && t !in st.block && st'.mi <= n
    requires Considered(pool, config, st, t, st', false, added) && st'.mi == if t in st.mod then st.mi else st.mi + 1
    ensures Progress(pool.txs, n, st.block, st'.block, st.mi, st'.mi, st.mod, st'.mod)
  {
    hide LoweredFor, Room, Admits, SizeOf;
    if added {
      assert t in pool.txs - st.block && t !in pool.txs - st'.block;
      SubsetSize(pool.txs - st'.block, pool.txs - st.block);
    } else if t in st.mod {
      assert st'.mod.Keys == st.mod.Keys - {t};
      SubsetSize(st'.mod.Keys, st.mod.Keys);
    }
  }
}
