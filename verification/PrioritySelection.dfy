/** The part of a block kept for priority: transactions are taken by priority from a queue, and
    those that still need a parent wait for it.  A log accounts for the order. */
module PrioritySelection {
  import opened MempoolGraph
  import opened PackageSelection

  type Queue = seq<(real, Tx)>

  /** Queued and waiting transactions are apart from each other and from the block, each once. */
  predicate Queued(pool: Pool, inBlock: set<Tx>, vec: Queue, wait: map<Tx, real>) {
    && (forall i :: 0 <= i < |vec| ==> vec[i].1 in pool.txs && vec[i].1 !in inBlock && vec[i].1 !in wait)
    && (forall i, j :: 0 <= i < j < |vec| ==> vec[i].1 != vec[j].1)
    && wait.Keys <= pool.txs && wait.Keys !! inBlock
  }

  lemma QueueBack(pool: Pool, inBlock: set<Tx>, vec: Queue, wait: map<Tx, real>, t: Tx)
    requires Queued(pool, inBlock, vec, wait) && t in wait
    ensures Queued(pool, inBlock, vec + [(wait[t], t)], wait - {t})
  {
  }

  lemma PopQueued(pool: Pool, inBlock: set<Tx>, vec: Queue, wait: map<Tx, real>, p: real, t: Tx, rest: Queue)
    requires Queued(pool, inBlock, vec, wait)
    requires exists k :: 0 <= k < |vec| && vec[k] == (p, t) && rest == vec[..k] + vec[k + 1..]
    ensures Queued(pool, inBlock, rest, wait) && t in pool.txs && t !in inBlock && t !in wait
    ensures forall i :: 0 <= i < |rest| ==> rest[i].1 != t
  {
    var k :| 0 <= k < |vec| && vec[k] == (p, t) && rest == vec[..k] + vec[k + 1..];
    forall i | 0 <= i < |rest| ensures rest[i] == vec[if i < k then i else i + 1] { }
  }

  lemma WaitQueued(pool: Pool, inBlock: set<Tx>, vec: Queue, wait: map<Tx, real>, t: Tx, p: real)
    requires Queued(pool, inBlock, vec, wait) && t in pool.txs && t !in inBlock
    requires forall i :: 0 <= i < |vec| ==> vec[i].1 != t
    ensures Queued(pool, inBlock, vec, wait[t := p])
  {
  }

  lemma GrowQueued(pool: Pool, inBlock: set<Tx>, vec: Queue, wait: map<Tx, real>, t: Tx)
    requires Queued(pool, inBlock, vec, wait) && t !in wait
    requires forall i :: 0 <= i < |vec| ==> vec[i].1 != t
    ensures Queued(pool, inBlock + {t}, vec, wait)
  {
  }

  /** Takes an entry of highest priority off the queue. */
  method PopHeap(vec: Queue) returns (p: real, t: Tx, rest: Queue)
    requires vec != []
    ensures exists k :: 0 <= k < |vec| && vec[k] == (p, t) && rest == vec[..k] + vec[k + 1..]
    ensures forall i :: 0 <= i < |vec| ==> vec[i].0 <= p
    ensures |rest| == |vec| - 1
  {
    var k, i := 0, 1;
    while i < |vec|
      invariant 0 <= k < i <= |vec|
      invariant forall j :: 0 <= j < i ==> vec[j].0 <= vec[k].0
    {
      if vec[i].0 > vec[k].0 { k := i; }
      i := i + 1;
    }
    p, t, rest := vec[k].0, vec[k].1, vec[..k] + vec[k + 1..];
  }

  // ---------------------------------------------------------------- what is promised

  /** The size up to which transactions are taken by priority. */
  function Quota(config: Config): int { config.limit * config.priorityPercentage / 100 }

  /** The given percentage of the limit, rounded down. */
  lemma QuotaIs(config: Config)
    ensures 100 * Quota(config) <= config.limit * config.priorityPercentage < 100 * (Quota(config) + 1)
  {
  }

  /** All parents are in the block. */
  predicate Ready(pool: Pool, block: set<Tx>, t: Tx)
    requires t in pool.parents
  {
    pool.parents[t] <= block
  }

  /** The block has room for a single transaction, and it is final. */
  ghost predicate Takes(pool: Pool, config: Config, block: set<Tx>, t: Tx)
    requires Shaped(pool) && block <= pool.txs && t in pool.txs
  {
    Room(pool, config, block, Figures(pool.size[t], 0, pool.sigOps[t])) && config.isFinal(t)
  }

  /** A transaction taken, the block before it, and what had been turned down by then. */
  datatype Turn = Turn(t: Tx, block: set<Tx>, refused: set<Tx>)

  datatype TurnLog = TurnLog(turns: seq<Turn>, refused: map<Tx, set<Tx>>)

  datatype TurnEnding = QueueEmpty | BlockFull(t: Tx) | QuotaReached | NotFree

  /** No transaction that is ready and was not turned down has a higher priority. */
  ghost predicate Highest(pool: Pool, config: Config, block: set<Tx>, refused: set<Tx>, t: Tx)
    requires Shaped(pool)
  {
    forall u :: u in pool.txs && u !in block && u !in refused && Ready(pool, block, u) ==>
      config.priority(u) <= config.priority(t)
  }

  ghost predicate SoundTurn(pool: Pool, config: Config, p: Turn)
    requires Shaped(pool)
  {
    && p.t in pool.txs && p.block <= pool.txs && p.t !in p.block && Ready(pool, p.block, p.t)
    && Takes(pool, config, p.block, p.t) && Highest(pool, config, p.block, p.refused, p.t)
  }

  /** Taking goes on while the quota is not reached and the last one could go for free. */
  ghost predicate GoesOn(pool: Pool, config: Config, quota: int, block: set<Tx>, last: Tx)
    requires Shaped(pool) && block <= pool.txs
  {
    SizeOf(pool, block) < quota && config.priority(last) > config.freeThreshold
  }

  /** The turns lead from the empty block to the block at the end, one transaction each. */
  ghost predicate Turns(pool: Pool, config: Config, quota: int, turns: seq<Turn>, end: set<Tx>)
    requires Shaped(pool)
    decreases |turns|
  {
    if turns == [] then end == {}
    else
      var n := |turns| - 1;
      var p := turns[n];
      && SoundTurn(pool, config, p) && end == p.block + {p.t}
      && (n > 0 ==> GoesOn(pool, config, quota, p.block, turns[n - 1].t))
      && Turns(pool, config, quota, turns[..n], p.block)
  }

  /** Everything turned down was ready and did not fit the block of that moment. */
  ghost predicate TurnedDown(pool: Pool, config: Config, block: set<Tx>, refused: map<Tx, set<Tx>>)
    requires Shaped(pool) && block <= pool.txs
  {
    forall t :: t in refused ==> t in pool.txs && refused[t] <= block && RightlyTurnedDown(pool, config, refused[t], t)
  }

  ghost predicate RightlyTurnedDown(pool: Pool, config: Config, block: set<Tx>, t: Tx)
    requires Shaped(pool) && block <= pool.txs && t in pool.txs
  {
    t !in block && Ready(pool, block, t) && !Takes(pool, config, block, t)
  }

  ghost predicate TurnsEnd(pool: Pool, config: Config, quota: int, block: set<Tx>, log: TurnLog, ending: TurnEnding)
    requires Shaped(pool) && block <= pool.txs
  {
    match ending
    case QueueEmpty => forall t :: t in pool.txs && t !in block && t !in log.refused ==> !Ready(pool, block, t)
    case BlockFull(t) => t in pool.txs && RightlyTurnedDown(pool, config, block, t)
    case QuotaReached => log.turns != [] && SizeOf(pool, block) >= quota
    case NotFree => log.turns != [] && config.priority(log.turns[|log.turns| - 1].t) <= config.freeThreshold
  }

  // ---------------------------------------------------------------- what the loop keeps

  function QueueIds(vec: Queue): set<Tx> { set i | 0 <= i < |vec| :: vec[i].1 }

  /** Whatever is neither in the block nor turned down is queued or waits for a parent. */
  ghost predicate Covered(pool: Pool, config: Config, block: set<Tx>, vec: Queue, wait: map<Tx, real>, refused: set<Tx>)
    requires Shaped(pool)
  {
    && (forall t :: t in pool.txs && t !in block && t !in refused ==> t in wait || t in QueueIds(vec))
    && (forall i :: 0 <= i < |vec| ==> vec[i].0 == config.priority(vec[i].1))
    && forall t :: t in wait && t in pool.txs ==> wait[t] == config.priority(t) && !Ready(pool, block, t)
  }

  ghost predicate TurnsLogged(pool: Pool, config: Config, quota: int, block: set<Tx>, log: TurnLog)
    requires Shaped(pool) && block <= pool.txs
  {
    && Turns(pool, config, quota, log.turns, block) && TurnedDown(pool, config, block, log.refused)
    && (log.turns != [] ==> GoesOn(pool, config, quota, block, log.turns[|log.turns| - 1].t))
  }

  lemma PopIds(vec: Queue, p: real, t: Tx, rest: Queue)
    requires exists k :: 0 <= k < |vec| && vec[k] == (p, t) && rest == vec[..k] + vec[k + 1..]
    ensures QueueIds(vec) == QueueIds(rest) + {t}
    ensures forall i :: 0 <= i < |rest| ==> rest[i] in vec
    ensures (p, t) in vec
  {
    var k :| 0 <= k < |vec| && vec[k] == (p, t) && rest == vec[..k] + vec[k + 1..];
    forall i | 0 <= i < |vec| ensures vec[i] == (p, t) || vec[i] in rest {
      if i < k { assert rest[i] == vec[i]; } else if i > k { assert rest[i - 1] == vec[i]; }
    }
    forall i | 0 <= i < |rest| ensures rest[i] in vec {
      assert rest[i] == vec[if i < k then i else i + 1];
    }
    forall u | u in QueueIds(vec) ensures u in QueueIds(rest) + {t} {
      var i :| 0 <= i < |vec| && vec[i].1 == u;
      if vec[i] in rest { var j :| 0 <= j < |rest| && rest[j] == vec[i]; }
    }
  }

  /** The entry taken off the queue has the highest priority of all that are ready. */
  lemma PopHighest(pool: Pool, config: Config, block: set<Tx>, vec: Queue, wait: map<Tx, real>, refused: set<Tx>,
                   p: real, t: Tx)
    requires Shaped(pool) && Covered(pool, config, block, vec, wait, refused)
    requires (p, t) in vec && forall i :: 0 <= i < |vec| ==> vec[i].0 <= p
    ensures p == config.priority(t) && Highest(pool, config, block, refused, t)
  {
    forall u | u in pool.txs && u !in block && u !in refused && Ready(pool, block, u)
      ensures config.priority(u) <= config.priority(t)
    {
      var i :| 0 <= i < |vec| && vec[i].1 == u;
    }
  }

  /** The entry taken off the queue waits, is turned down or enters the block; the rest stays. */
  lemma PopCovered(pool: Pool, config: Config, block: set<Tx>, vec: Queue, wait: map<Tx, real>, refused: set<Tx>,
                   p: real, t: Tx, rest: Queue)
    requires Shaped(pool) && t in pool.txs && Covered(pool, config, block, vec, wait, refused)
    requires exists k :: 0 <= k < |vec| && vec[k] == (p, t) && rest == vec[..k] + vec[k + 1..]
    ensures Covered(pool, config, block, rest, wait, refused + {t})
    ensures !Ready(pool, block, t) ==> Covered(pool, config, block, rest, wait[t := p], refused)
  {
    hide Ready, QueueIds;
    PopIds(vec, p, t, rest);
  }

  /** Children of what has just been taken are queued again; all others still wait for a parent. */
  lemma TakeCovered(pool: Pool, config: Config, block: set<Tx>, vec: Queue, wait: map<Tx, real>, refused: set<Tx>,
                    t: Tx, vec': Queue, wait': map<Tx, real>)
    requires Shaped(pool) && Covered(pool, config, block, vec, wait, refused + {t}) && wait.Keys <= pool.txs
    requires wait' == map c | c in wait && t !in pool.parents[c] :: wait[c]
    requires vec <= vec' && QueueIds(vec') == QueueIds(vec) + (wait.Keys - wait'.Keys)
    requires forall i :: |vec| <= i < |vec'| ==> vec'[i].1 in wait && vec'[i].0 == wait[vec'[i].1]
    ensures Covered(pool, config, block + {t}, vec', wait', refused)
  {
    hide QueueIds;
    forall i | 0 <= i < |vec'| ensures vec'[i].0 == config.priority(vec'[i].1) {
      if i < |vec| { assert vec'[i] == vec[i]; }
    }
  }

  lemma TurnLogged(pool: Pool, config: Config, quota: int, block: set<Tx>, log: TurnLog, p: Turn)
    requires Shaped(pool) && block <= pool.txs && TurnsLogged(pool, config, quota, block, log)
    requires p.block == block && SoundTurn(pool, config, p)
    ensures Turns(pool, config, quota, log.turns + [p], block + {p.t})
    ensures block + {p.t} <= pool.txs && TurnedDown(pool, config, block + {p.t}, log.refused)
  {
    hide SoundTurn, RightlyTurnedDown;
    var turns := log.turns + [p];
    assert turns[..|turns| - 1] == log.turns;
    assert p.t in pool.txs by { TurnKnown(pool, config, p); }
  }

  lemma TurnKnown(pool: Pool, config: Config, p: Turn)
    requires Shaped(pool) && SoundTurn(pool, config, p)
    ensures p.t in pool.txs
  {
  }

  lemma RefusalLogged(pool: Pool, config: Config, quota: int, block: set<Tx>, log: TurnLog, t: Tx)
    requires Shaped(pool) && block <= pool.txs && TurnsLogged(pool, config, quota, block, log)
    requires t in pool.txs && RightlyTurnedDown(pool, config, block, t)
    ensures TurnsLogged(pool, config, quota, block, log.(refused := log.refused[t := block]))
  {
    hide Turns, RightlyTurnedDown;
  }

  lemma QueueRanOut(pool: Pool, config: Config, quota: int, block: set<Tx>, wait: map<Tx, real>, log: TurnLog)
    requires Shaped(pool) && block <= pool.txs && Covered(pool, config, block, [], wait, log.refused.Keys)
    ensures TurnsEnd(pool, config, quota, block, log, QueueEmpty)
  {
  }

  lemma NoIds()
    ensures QueueIds([]) == {}
  {
  }

  lemma IdsBack(vec: Queue, p: real, t: Tx)
    ensures QueueIds(vec + [(p, t)]) == QueueIds(vec) + {t}
  {
    var longer := vec + [(p, t)];
    assert longer[|vec|].1 == t;
    forall u | u in QueueIds(vec) ensures u in QueueIds(longer) {
      var i :| 0 <= i < |vec| && vec[i].1 == u;
      assert longer[i].1 == u;
    }
  }

  lemma MeansReady(pool: Pool, block: set<Tx>, t: Tx)
    requires Shaped(pool) && t in pool.txs
    ensures Ready(pool, block, t) <==> pool.parents[t] <= block
  {
  }

  lemma FitsMeans(pool: Pool, config: Config, block: set<Tx>, t: Tx, size: int, sigOps: int, fits: bool)
    requires Shaped(pool) && block <= pool.txs && t in pool.txs && size == SizeOf(pool, block)
    requires sigOps == SigOpsOf(pool, block)
    requires fits <==>
      && size + pool.size[t] < config.limit && sigOps + pool.sigOps[t] < MaxSigOps(size + pool.size[t])
      && config.isFinal(t)
    ensures fits <==> Takes(pool, config, block, t)
  {
    hide MaxSigOps, SizeOf, SigOpsOf;
  }

  lemma StartTurns(pool: Pool, config: Config, quota: int)
    requires Shaped(pool)
    ensures TurnsLogged(pool, config, quota, {}, TurnLog([], map[]))
    ensures Turns(pool, config, quota, [], {}) && TurnedDown(pool, config, {}, map[])
    ensures TurnLog([], map[]).refused.Keys == {}
  {
  }

  lemma TurnsOf(pool: Pool, config: Config, quota: int, block: set<Tx>, log: TurnLog)
    requires Shaped(pool) && block <= pool.txs && TurnsLogged(pool, config, quota, block, log)
    ensures Turns(pool, config, quota, log.turns, block) && TurnedDown(pool, config, block, log.refused)
  {
    hide Turns, TurnedDown;
  }

  // ---------------------------------------------------------------- queueing children again

  function Children(pool: Pool, t: Tx): set<Tx>
    requires Shaped(pool)
  {
    set c | c in pool.txs && t in pool.parents[c]
  }

  /** The children other than those in `todo` have moved from waiting to the end of the queue. */
  predicate Requeued(vec0: Queue, wait0: map<Tx, real>, children: set<Tx>, todo: set<Tx>, vec: Queue,
                     wait: map<Tx, real>) {
    && todo <= children && wait == (map c | c in wait0 && (c in children ==> c in todo) :: wait0[c])
    && vec0 <= vec && QueueIds(vec) == QueueIds(vec0) + (wait0.Keys - wait.Keys)
    && forall i :: |vec0| <= i < |vec| ==> vec[i].1 in wait0 && vec[i].0 == wait0[vec[i].1]
  }

  lemma WaitingKnown(pool: Pool, block: set<Tx>, vec: Queue, wait: map<Tx, real>)
    requires Queued(pool, block, vec, wait)
    ensures wait.Keys <= pool.txs
  {
  }

  lemma RequeueStart(vec: Queue, wait: map<Tx, real>, children: set<Tx>)
    ensures Requeued(vec, wait, children, children, vec, wait)
  {
    hide QueueIds;
  }

  lemma RequeueStep(vec0: Queue, wait0: map<Tx, real>, children: set<Tx>, todo: set<Tx>, vec: Queue,
                    wait: map<Tx, real>, c: Tx)
    requires Requeued(vec0, wait0, children, todo, vec, wait) && c in todo
    ensures c in wait ==> Requeued(vec0, wait0, children, todo - {c}, vec + [(wait[c], c)], wait - {c})
    ensures c !in wait ==> Requeued(vec0, wait0, children, todo - {c}, vec, wait)
  {
    hide QueueIds;
    if c in wait {
      IdsBack(vec, wait[c], c);
      assert wait0.Keys - (wait - {c}).Keys == wait0.Keys - wait.Keys + {c};
    }
  }

  lemma RequeueEnd(pool: Pool, t: Tx, vec0: Queue, wait0: map<Tx, real>, vec: Queue, wait: map<Tx, real>)
    requires Shaped(pool) && wait0.Keys <= pool.txs && Requeued(vec0, wait0, Children(pool, t), {}, vec, wait)
    ensures wait == map c | c in wait0 && t !in pool.parents[c] :: wait0[c]
    ensures vec0 <= vec && QueueIds(vec) == QueueIds(vec0) + (wait0.Keys - wait.Keys)
    ensures forall i :: |vec0| <= i < |vec| ==> vec[i].1 in wait0 && vec[i].0 == wait0[vec[i].1]
  {
    hide QueueIds;
  }
}
