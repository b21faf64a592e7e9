/** The check queue: one master pushes checks and later joins N-1 workers until all are done.
    Each section under the mutex is one step; a thread blocked on a condition variable waits for
    a notification, or wakes without one.  A check is represented by its verdict. */
module CheckQueue {
  import opened Arithmetic

  /** What the mutex protects. */
  datatype Shared = Shared(
    queue: seq<bool>, nIdle: int, nTotal: int, fAllOk: bool, fQuit: bool,
    nTodo: int, nBatchSize: nat)

  /** A thread: outside Loop, executing a batch of `now` checks of which `rest` are still to run,
      or blocked on its condition variable. */
  datatype Local = Outside | Working(now: nat, rest: seq<bool>, fOk: bool) | Blocked(notified: bool)

  const MASTER := 0

  /** Thread 0 is the master; `added` is the history of checks added since Wait last returned. */
  datatype State = State(s: Shared, threads: seq<Local>, added: seq<bool>)

  predicate All(checks: seq<bool>) {
    forall i :: 0 <= i < |checks| ==> checks[i]
  }

  // ---------------------------------------------------------------- counting threads

  function InHand(threads: seq<Local>): nat {
    if threads == [] then 0
    else InHand(threads[1..]) + (if threads[0].Working? then threads[0].now else 0)
  }

  function Inside(threads: seq<Local>): nat {
    if threads == [] then 0
    else Inside(threads[1..]) + (if threads[0].Outside? then 0 else 1)
  }

  function Idle(threads: seq<Local>): nat {
    if threads == [] then 0
    else Idle(threads[1..]) + (if threads[0].Blocked? then 1 else 0)
  }

  function Load(l: Local): nat { if l.Working? then l.now else 0 }

  lemma {:induction false} CountsUpdate(threads: seq<Local>, t: nat, l: Local)
    requires t < |threads|
    ensures InHand(threads[t := l]) == InHand(threads) - Load(threads[t]) + Load(l)
    ensures Inside(threads[t := l]) == Inside(threads) - (if threads[t].Outside? then 0 else 1)
                                       + (if l.Outside? then 0 else 1)
    ensures Idle(threads[t := l]) == Idle(threads) - (if threads[t].Blocked? then 1 else 0)
                                     + (if l.Blocked? then 1 else 0)
  {
    var threads' := threads[t := l];
    if t == 0 {
      assert threads'[1..] == threads[1..];
    } else {
      CountsUpdate(threads[1..], t - 1, l);
      assert threads'[1..] == threads[1..][t - 1 := l];
    }
  }

  lemma {:induction false} InHandAtLeast(threads: seq<Local>, t: nat)
    requires t < |threads|
    ensures InHand(threads) >= Load(threads[t])
  {
    if t > 0 { InHandAtLeast(threads[1..], t - 1); }
  }

  lemma {:induction false} SomeoneWorks(threads: seq<Local>)
    requires InHand(threads) > 0
    ensures exists t :: 0 <= t < |threads| && threads[t].Working? && threads[t].now > 0
  {
    if Load(threads[0]) == 0 {
      SomeoneWorks(threads[1..]);
      var t :| 0 <= t < |threads[1..]| && threads[1..][t].Working? && threads[1..][t].now > 0;
      assert threads[t + 1].Working?;
    }
  }

  /** Waking threads changes no count. */
  predicate Nudged(threads: seq<Local>, threads': seq<Local>) {
    && |threads'| == |threads|
    && forall t :: 0 <= t < |threads| ==>
         threads'[t] == threads[t] || (threads[t].Blocked? && threads'[t] == Blocked(true))
  }

  lemma {:induction false} NudgedCounts(threads: seq<Local>, threads': seq<Local>)
    requires Nudged(threads, threads')
    ensures InHand(threads') == InHand(threads)
    ensures Inside(threads') == Inside(threads) && Idle(threads') == Idle(threads)
  {
    if threads != [] {
      assert Nudged(threads[1..], threads'[1..]);
      NudgedCounts(threads[1..], threads'[1..]);
    }
  }

  // ---------------------------------------------------------------- sections under the mutex

  /** How many checks a thread takes: smaller batches as the queue drains, never none. */
  function BatchSize(s: Shared): int
    requires s.nTotal >= 0 && s.nIdle >= 0
  {
    Max(1, Min(s.nBatchSize, |s.queue| / (s.nTotal + s.nIdle + 1)))
  }

  function Reverse(s: seq<bool>): seq<bool> {
    if s == [] then [] else [s[|s| - 1]] + Reverse(s[..|s| - 1])
  }

  /** Whether a thread with nothing to take may leave. */
  predicate MayLeave(s: Shared, t: nat) {
    (t == MASTER || s.fQuit) && s.nTodo == 0
  }

  /** The end of the section: leave, block, or take the newest checks off the queue. */
  function Decide(st: State, t: nat): State
    requires t < |st.threads| && st.s.nTotal >= 0 && st.s.nIdle >= 0
    requires st.s.queue != [] ==> BatchSize(st.s) <= |st.s.queue|
  {
    var s := st.s;
    if s.queue == [] then
      if MayLeave(s, t) then
        State(s.(nTotal := s.nTotal - 1, fAllOk := if t == MASTER then true else s.fAllOk),
              st.threads[t := Outside], if t == MASTER then [] else st.added)
      else
        st.(s := s.(nIdle := s.nIdle + 1), threads := st.threads[t := Blocked(false)])
    else
      var n := BatchSize(s);
      var rest := |s.queue| - n;
      st.(s := s.(queue := s.queue[..rest]),
          threads := st.threads[t := Working(n, Reverse(s.queue[rest..]), s.fAllOk)])
  }

  lemma BatchFits(s: Shared)
    requires s.nTotal >= 0 && s.nIdle >= 0 && s.queue != []
    ensures 1 <= BatchSize(s) <= |s.queue|
  {
    DivideShrinks(|s.queue|, s.nTotal + s.nIdle + 1);
  }

  lemma {:induction false} ReverseAll(s: seq<bool>)
    ensures |Reverse(s)| == |s| && (All(Reverse(s)) <==> All(s))
  {
    if s != [] {
      var n := |s| - 1;
      ReverseAll(s[..n]);
      assert s == s[..n] + [s[n]];
      var r := Reverse(s);
      assert All(r) <==> r[0] && All(r[1..]) by {
        assert forall i :: 1 <= i < |r| ==> r[i] == r[1..][i - 1];
        assert forall i :: 0 <= i < |r[1..]| ==> r[1..][i] == r[i + 1];
      }
      assert r[1..] == Reverse(s[..n]);
      AllConcat(s[..n], [s[n]]);
    }
  }

  lemma AllConcat(a: seq<bool>, b: seq<bool>)
    ensures All(a + b) <==> All(a) && All(b)
  {
    assert forall i :: 0 <= i < |a| ==> a[i] == (a + b)[i];
    assert forall i :: 0 <= i < |b| ==> b[i] == (a + b)[|a| + i];
  }

  // ---------------------------------------------------------------- the invariant

  predicate Passing(l: Local) {
    l.Working? ==> l.fOk && All(l.rest)
  }

  /** Nothing is forgotten: the checks added since the last Wait all hold exactly when no failure
      has been recorded, and none is still queued or in a batch. */
  predicate Truthful(st: State) {
    All(st.added) <==>
      st.s.fAllOk && All(st.s.queue)
      && forall t :: 0 <= t < |st.threads| ==> Passing(st.threads[t])
  }

  predicate Batches(threads: seq<Local>) {
    forall t :: 0 <= t < |threads| && threads[t].Working? ==>
      threads[t].now >= 1 && |threads[t].rest| <= threads[t].now
  }

  /** A blocked master has emptied the queue; if nothing is left to do it has been notified. */
  predicate NoLostWakeup(st: State) {
    |st.threads| > 0 && st.threads[MASTER].Blocked? ==>
      st.s.queue == [] && (!st.threads[MASTER].notified ==> st.s.nTodo > 0)
  }

  predicate Inv(st: State) {
    && |st.threads| > 0
    && st.s.nTodo == |st.s.queue| + InHand(st.threads)
    && st.s.nTotal == Inside(st.threads) && st.s.nIdle == Idle(st.threads)
    && Batches(st.threads) && Truthful(st) && NoLostWakeup(st)
  }

  /** The invariant inside a section of thread `t`, which counts as neither idle nor working. */
  predicate SectionInv(st: State, t: nat) {
    && t < |st.threads| && st.threads[t] == Outside
    && st.s.nTodo == |st.s.queue| + InHand(st.threads)
    && st.s.nTotal == Inside(st.threads) + 1 && st.s.nIdle == Idle(st.threads)
    && Batches(st.threads) && Truthful(st) && NoLostWakeup(st)
  }

  lemma UpdateTruthful(st: State, t: nat, l: Local, s: Shared)
    requires t < |st.threads| && st.threads[t] == Outside && Truthful(st)
    requires s.fAllOk && All(s.queue) && Passing(l) <==> st.s.fAllOk && All(st.s.queue)
    ensures Truthful(State(s, st.threads[t := l], st.added))
  {
    var threads' := st.threads[t := l];
    assert forall i :: 0 <= i < |threads'| && i != t ==> threads'[i] == st.threads[i];
    assert (forall i :: 0 <= i < |threads'| ==> Passing(threads'[i])) <==>
           Passing(l) && (forall i :: 0 <= i < |st.threads| ==> Passing(st.threads[i])) by {
      assert threads'[t] == l && Passing(st.threads[t]);
      if forall i :: 0 <= i < |threads'| ==> Passing(threads'[i]) {
        forall i | 0 <= i < |st.threads| ensures Passing(st.threads[i]) {
          assert Passing(threads'[i]);
        }
      }
    }
  }

  lemma TakeKeeps(st: State, t: nat)
    requires SectionInv(st, t) && st.s.queue != []
    ensures BatchSize(st.s) <= |st.s.queue| && Inv(Decide(st, t))
  {
    BatchFits(st.s);
    var n := BatchSize(st.s);
    var keep := |st.s.queue| - n;
    var l := Working(n, Reverse(st.s.queue[keep..]), st.s.fAllOk);
    CountsUpdate(st.threads, t, l);
    ReverseAll(st.s.queue[keep..]);
    assert st.s.queue == st.s.queue[..keep] + st.s.queue[keep..];
    AllConcat(st.s.queue[..keep], st.s.queue[keep..]);
    UpdateTruthful(st, t, l, st.s.(queue := st.s.queue[..keep]));
  }

  lemma BlockKeeps(st: State, t: nat)
    requires SectionInv(st, t) && st.s.queue == [] && !MayLeave(st.s, t)
    ensures Inv(Decide(st, t))
  {
    CountsUpdate(st.threads, t, Blocked(false));
    UpdateTruthful(st, t, Blocked(false), st.s.(nIdle := st.s.nIdle + 1));
  }

  /** Leaving: with nothing left to do, the verdict is that of all checks added. */
  lemma LeaveKeeps(st: State, t: nat)
    requires SectionInv(st, t) && st.s.queue == [] && MayLeave(st.s, t)
    ensures st.s.fAllOk <==> All(st.added)
    ensures Inv(Decide(st, t))
  {
    CountsUpdate(st.threads, t, Outside);
    assert InHand(st.threads) == 0;
    forall i | 0 <= i < |st.threads|
      ensures Passing(st.threads[i])
    {
      InHandAtLeast(st.threads, i);
    }
    assert st.threads[t := Outside] == st.threads;
  }

  lemma DecideKeeps(st: State, t: nat)
    requires SectionInv(st, t)
    ensures st.s.queue != [] ==> BatchSize(st.s) <= |st.s.queue|
    ensures Inv(Decide(st, t))
  {
    if st.s.queue != [] {
      TakeKeeps(st, t);
    } else if MayLeave(st.s, t) {
      LeaveKeeps(st, t);
    } else {
      BlockKeeps(st, t);
    }
  }

  // ---------------------------------------------------------------- steps

  function WakeMaster(threads: seq<Local>): seq<Local> {
    if |threads| > 0 && threads[MASTER].Blocked? then threads[MASTER := Blocked(true)] else threads
  }

  /** notify_one: `who` is the blocked worker it wakes, if there is one. */
  function WakeWorker(threads: seq<Local>, who: nat): seq<Local> {
    if 0 < who < |threads| && threads[who].Blocked? then threads[who := Blocked(true)] else threads
  }

  function WakeFrom(threads: seq<Local>, first: nat): seq<Local> {
    seq(|threads|, t requires 0 <= t < |threads| =>
      if t >= first && threads[t].Blocked? then Blocked(true) else threads[t])
  }

  /** The section a thread enters Loop with. */
  function EnterSection(st: State): State {
    st.(s := st.s.(nTotal := st.s.nTotal + 1))
  }

  /** The section after a batch: record its verdict, and tell the master when it was the last. */
  function FinishSection(st: State, t: nat): State
    requires t < |st.threads| && st.threads[t].Working?
  {
    var l := st.threads[t];
    var s := st.s.(fAllOk := st.s.fAllOk && l.fOk, nTodo := st.s.nTodo - l.now);
    var threads := st.threads[t := Outside];
    State(s, if s.nTodo == 0 && t != MASTER then WakeMaster(threads) else threads, st.added)
  }

  function WakeSection(st: State, t: nat): State
    requires t < |st.threads|
  {
    st.(s := st.s.(nIdle := st.s.nIdle - 1), threads := st.threads[t := Outside])
  }

  datatype Step =
    | Enter(t: nat)
    | Execute(t: nat)
    | Finish(t: nat)
    | Wake(t: nat)
    | Add(checks: seq<bool>, who: nat)
    | Interrupt

  /** Whom notify_one may wake: a worker still waiting, if there is one. */
  predicate Chosen(threads: seq<Local>, who: nat) {
    || (0 < who < |threads| && threads[who] == Blocked(false))
    || forall t :: 0 < t < |threads| ==> threads[t] != Blocked(false)
  }

  /** What each step needs: only the master adds, and only while it is not in Wait. */
  predicate Enabled(st: State, step: Step) {
    match step
    case Enter(t) => t < |st.threads| && st.threads[t] == Outside
    case Execute(t) => t < |st.threads| && st.threads[t].Working? && st.threads[t].rest != []
    case Finish(t) => t < |st.threads| && st.threads[t].Working? && st.threads[t].rest == []
    case Wake(t) => t < |st.threads| && st.threads[t].Blocked?
    case Add(checks, who) =>
      |st.threads| > 0 && st.threads[MASTER] == Outside && (|checks| == 1 ==> Chosen(st.threads, who))
    case Interrupt => true
  }

  function RunOne(l: Local): Local
    requires l.Working? && l.rest != []
  {
    Working(l.now, l.rest[1..], l.fOk && l.rest[0])
  }

  /** The section a step runs before it decides what its thread does next. */
  function Section(st: State, step: Step): State
    requires Enabled(st, step) && (step.Enter? || step.Finish? || step.Wake?)
  {
    match step
    case Enter(_) => EnterSection(st)
    case Finish(t) => FinishSection(st, t)
    case Wake(t) => WakeSection(st, t)
  }

  /** A woken thread goes on only if the condition it waits for holds. */
  predicate GoesOn(st: State, step: Step)
    requires step.Enter? || step.Finish? || step.Wake?
  {
    step.Wake? ==> st.s.queue != [] || MayLeave(st.s, step.t)
  }

  function Next(st: State, step: Step): State
    requires Inv(st) && Enabled(st, step)
  {
    match step
    case Execute(t) => st.(threads := st.threads[t := RunOne(st.threads[t])])
    case Add(checks, who) =>
      State(st.s.(queue := st.s.queue + checks, nTodo := st.s.nTodo + |checks|),
            if |checks| == 1 then WakeWorker(st.threads, who)
            else if |checks| > 1 then WakeFrom(st.threads, 1) else st.threads,
            st.added + checks)
    case Interrupt => st.(s := st.s.(fQuit := true), threads := WakeFrom(st.threads, 0))
    case _ =>
      if GoesOn(st, step) then
        SectionKeeps(st, step);
        DecideKeeps(Section(st, step), step.t);
        Decide(Section(st, step), step.t)
      else st.(threads := st.threads[step.t := Blocked(false)])
  }

  lemma NudgedTruthful(st: State, threads: seq<Local>)
    requires Truthful(st) && Nudged(st.threads, threads)
    ensures Truthful(st.(threads := threads))
  {
    assert forall t :: 0 <= t < |threads| ==> (Passing(threads[t]) <==> Passing(st.threads[t]));
    if forall t :: 0 <= t < |threads| ==> Passing(threads[t]) {
      forall t | 0 <= t < |st.threads| ensures Passing(st.threads[t]) {
        assert Passing(threads[t]);
      }
    }
  }

  lemma NudgedKeeps(st: State, threads: seq<Local>)
    requires Inv(st) && Nudged(st.threads, threads)
    ensures Inv(st.(threads := threads))
  {
    NudgedCounts(st.threads, threads);
    NudgedTruthful(st, threads);
  }

  /** Taking a thread's working state away, with its verdict recorded. */
  lemma SettleTruthful(st: State, t: nat, s: Shared)
    requires t < |st.threads| && Truthful(st)
    requires s.queue == st.s.queue && (s.fAllOk <==> st.s.fAllOk && Passing(st.threads[t]))
    ensures Truthful(State(s, st.threads[t := Outside], st.added))
  {
    var threads' := st.threads[t := Outside];
    assert threads'[t] == Outside;
    if s.fAllOk && forall i :: 0 <= i < |threads'| ==> Passing(threads'[i]) {
      forall i | 0 <= i < |st.threads| ensures Passing(st.threads[i]) {
        assert i != t ==> Passing(threads'[i]);
      }
    }
  }

  lemma FinishKeeps(st: State, t: nat)
    requires Inv(st) && Enabled(st, Finish(t))
    ensures SectionInv(FinishSection(st, t), t)
  {
    var l := st.threads[t];
    var s := st.s.(fAllOk := st.s.fAllOk && l.fOk, nTodo := st.s.nTodo - l.now);
    var st1 := State(s, st.threads[t := Outside], st.added);
    CountsUpdate(st.threads, t, Outside);
    SettleTruthful(st, t, s);
    var threads := WakeMaster(st1.threads);
    assert Nudged(st1.threads, threads);
    NudgedCounts(st1.threads, threads);
    NudgedTruthful(st1, threads);
  }

  lemma SectionKeeps(st: State, step: Step)
    requires Inv(st) && Enabled(st, step) && (step.Enter? || step.Finish? || step.Wake?)
    requires GoesOn(st, step)
    ensures SectionInv(Section(st, step), step.t)
  {
    match step {
      case Enter(t) =>
        assert Truthful(EnterSection(st));
      case Finish(t) => FinishKeeps(st, t);
      case Wake(t) =>
        CountsUpdate(st.threads, t, Outside);
        SettleTruthful(st, t, st.s.(nIdle := st.s.nIdle - 1));
    }
  }

  lemma ExecuteKeeps(st: State, t: nat)
    requires Inv(st) && Enabled(st, Execute(t))
    ensures Inv(Next(st, Execute(t)))
  {
    var l := st.threads[t];
    CountsUpdate(st.threads, t, RunOne(l));
    assert l.rest == [l.rest[0]] + l.rest[1..];
    AllConcat([l.rest[0]], l.rest[1..]);
    assert Passing(RunOne(l)) <==> Passing(l);
    var threads' := st.threads[t := RunOne(l)];
    forall i | 0 <= i < |threads'|
      ensures Passing(threads'[i]) <==> Passing(st.threads[i])
    {
    }
    if forall i :: 0 <= i < |threads'| ==> Passing(threads'[i]) {
      forall i | 0 <= i < |st.threads| ensures Passing(st.threads[i]) {
        assert Passing(threads'[i]);
      }
    }
  }

  lemma AddKeeps(st: State, checks: seq<bool>, who: nat)
    requires Inv(st) && Enabled(st, Add(checks, who))
    ensures Inv(Next(st, Add(checks, who)))
  {
    AllConcat(st.added, checks);
    AllConcat(st.s.queue, checks);
    var st1 := State(st.s.(queue := st.s.queue + checks, nTodo := st.s.nTodo + |checks|),
                     st.threads, st.added + checks);
    assert Truthful(st1);
    NudgedKeeps(st1, Next(st, Add(checks, who)).threads);
  }

  /** Every step of every thread keeps the invariant. */
  lemma NextKeeps(st: State, step: Step)
    requires Inv(st) && Enabled(st, step)
    ensures Inv(Next(st, step))
  {
    match step {
      case Execute(t) => ExecuteKeeps(st, t);
      case Add(checks, who) => AddKeeps(st, checks, who);
      case Interrupt =>
        assert Truthful(st.(s := st.s.(fQuit := true)));
        NudgedKeeps(st.(s := st.s.(fQuit := true)), WakeFrom(st.threads, 0));
      case Enter(t) => MoveKeeps(st, step);
      case Finish(t) => MoveKeeps(st, step);
      case Wake(t) =>
        if GoesOn(st, step) { MoveKeeps(st, step); } else { RelapseKeeps(st, t); }
    }
  }

  lemma MoveKeeps(st: State, step: Step)
    requires Inv(st) && Enabled(st, step) && (step.Enter? || step.Finish? || step.Wake?)
    requires GoesOn(st, step)
    ensures Inv(Next(st, step))
  {
    SectionKeeps(st, step);
    DecideKeeps(Section(st, step), step.t);
  }

  lemma RelapseKeeps(st: State, t: nat)
    requires Inv(st) && Enabled(st, Wake(t)) && !GoesOn(st, Wake(t))
    ensures Inv(Next(st, Wake(t)))
  {
    CountsUpdate(st.threads, t, Blocked(false));
    SettleTruthful(st, t, st.s);
    UpdateTruthful(st.(threads := st.threads[t := Outside]), t, Blocked(false), st.s);
    assert st.threads[t := Outside][t := Blocked(false)] == st.threads[t := Blocked(false)];
  }

  // ---------------------------------------------------------------- runs

  function Init(threads: nat, batch: nat): State {
    State(Shared([], 0, 0, true, false, 0, batch), seq(threads, _ => Outside), [])
  }

  /** The steps of a run, each enabled where it is taken. */
  predicate IsRun(st: State, steps: seq<Step>)
    requires Inv(st)
    decreases |steps|
  {
    steps == [] ||
    (Enabled(st, steps[0]) && (NextKeeps(st, steps[0]); IsRun(Next(st, steps[0]), steps[1..])))
  }

  function Run(st: State, steps: seq<Step>): (end: State)
    requires Inv(st) && IsRun(st, steps)
    ensures Inv(end)
    decreases |steps|
  {
    if steps == [] then st
    else
      NextKeeps(st, steps[0]);
      Run(Next(st, steps[0]), steps[1..])
  }

  lemma {:induction false} OutsideCounts(threads: seq<Local>)
    requires forall t :: 0 <= t < |threads| ==> threads[t] == Outside
    ensures InHand(threads) == 0 && Inside(threads) == 0 && Idle(threads) == 0
  {
    if threads != [] { OutsideCounts(threads[1..]); }
  }

  lemma InitInv(threads: nat, batch: nat)
    requires threads > 0
    ensures Inv(Init(threads, batch))
  {
    OutsideCounts(Init(threads, batch).threads);
  }

  /** Whether a step is the one at which Wait returns. */
  predicate Returns(st: State, step: Step)
    requires Inv(st) && Enabled(st, step)
  {
    && (step.Enter? || step.Finish? || step.Wake?) && step.t == MASTER && GoesOn(st, step)
    && Section(st, step).s.queue == [] && Section(st, step).s.nTodo == 0
  }

  function Verdict(st: State, step: Step): bool
    requires Inv(st) && Enabled(st, step) && Returns(st, step)
  {
    Section(st, step).s.fAllOk
  }

  predicate NeverReturns(st: State, steps: seq<Step>)
    requires Inv(st) && IsRun(st, steps)
    decreases |steps|
  {
    steps == [] ||
    (!Returns(st, steps[0]) && (NextKeeps(st, steps[0]); NeverReturns(Next(st, steps[0]), steps[1..])))
  }

  /** All checks the steps add, in order. */
  function AllAdded(steps: seq<Step>): seq<bool> {
    if steps == [] then []
    else (if steps[0].Add? then steps[0].checks else []) + AllAdded(steps[1..])
  }

  lemma {:induction false} HistoryIsAdded(st: State, steps: seq<Step>)
    requires Inv(st) && IsRun(st, steps) && NeverReturns(st, steps)
    ensures Run(st, steps).added == st.added + AllAdded(steps)
    decreases |steps|
  {
    hide Inv, Next, Enabled, Returns;
    if steps != [] {
      var next := Next(st, steps[0]);
      NextKeeps(st, steps[0]);
      StepAdds(st, steps[0]);
      var rest := steps[1..];
      HistoryIsAdded(next, rest);
      AddedOnce(st.added, if steps[0].Add? then steps[0].checks else [], AllAdded(rest));
    }
  }

  lemma AddedOnce(before: seq<bool>, now: seq<bool>, later: seq<bool>)
    ensures before + now + later == before + (now + later)
  {
  }

  lemma StepAdds(st: State, step: Step)
    requires Inv(st) && Enabled(st, step) && !Returns(st, step)
    ensures Next(st, step).added == st.added + (if step.Add? then step.checks else [])
  {
  }

  /** The value Wait returns is the conjunction of every check added since the queue was made or
      Wait last returned: no check is lost, skipped or counted for another round. */
  lemma WaitVerdict(st: State, steps: seq<Step>, last: Step)
    requires Inv(st) && st.added == []
    requires IsRun(st, steps) && NeverReturns(st, steps)
    requires Enabled(Run(st, steps), last) && Returns(Run(st, steps), last)
    ensures Verdict(Run(st, steps), last) <==> All(AllAdded(steps))
    ensures Next(Run(st, steps), last).added == []
    ensures Next(Run(st, steps), last).threads[MASTER] == Outside
    ensures Next(Run(st, steps), last).s.fAllOk && Next(Run(st, steps), last).s.nTodo == 0
  {
    HistoryIsAdded(st, steps);
    var end := Run(st, steps);
    SectionKeeps(end, last);
    LeaveKeeps(Section(end, last), MASTER);
    assert end.added == AllAdded(steps);
  }

  // ---------------------------------------------------------------- progress

  /** A step some thread takes without being added to, interrupted or woken for no reason. */
  predicate Productive(st: State, step: Step) {
    Enabled(st, step) && match step
      case Execute(_) => true
      case Finish(_) => true
      case Wake(t) => st.threads[t].notified
      case _ => false
  }

  /** No lost wake-up: while the master is inside Wait, some thread has a step to take. */
  lemma NoDeadlock(st: State)
    requires Inv(st) && st.threads[MASTER] != Outside
    ensures exists step :: Productive(st, step)
  {
    var t: nat := MASTER;
    if st.threads[MASTER] == Blocked(true) {
      assert Productive(st, Wake(MASTER));
    } else {
      if st.threads[MASTER] == Blocked(false) {
        SomeoneWorks(st.threads);
        t :| 0 <= t < |st.threads| && st.threads[t].Working? && st.threads[t].now > 0;
      }
      if st.threads[t].rest == [] {
        assert Productive(st, Finish(t));
      } else {
        assert Productive(st, Execute(t));
      }
    }
  }

  function Weight(l: Local): nat {
    match l
    case Outside => 0
    case Working(_, rest, _) => 2 + 2 * |rest|
    case Blocked(notified) => if notified then 1 else 0
  }

  function Weights(threads: seq<Local>): nat {
    if threads == [] then 0 else Weight(threads[0]) + Weights(threads[1..])
  }

  /** The work left: what is queued, what is in hand, and the wake-ups still to be served. */
  function Work(st: State): nat { 4 * |st.s.queue| + Weights(st.threads) }

  lemma {:induction false} WeightsUpdate(threads: seq<Local>, t: nat, l: Local)
    requires t < |threads|
    ensures Weights(threads[t := l]) == Weights(threads) - Weight(threads[t]) + Weight(l)
  {
    var threads' := threads[t := l];
    if t == 0 {
      assert threads'[1..] == threads[1..];
    } else {
      WeightsUpdate(threads[1..], t - 1, l);
      assert threads'[1..] == threads[1..][t - 1 := l];
    }
  }

  lemma DecideWork(st: State, t: nat)
    requires SectionInv(st, t)
    ensures st.s.queue != [] ==> BatchSize(st.s) <= |st.s.queue|
    ensures Work(Decide(st, t)) <= Work(st)
  {
    DecideKeeps(st, t);
    if st.s.queue != [] {
      BatchFits(st.s);
      var keep := |st.s.queue| - BatchSize(st.s);
      ReverseAll(st.s.queue[keep..]);
    }
    WeightsUpdate(st.threads, t, Decide(st, t).threads[t]);
  }

  lemma SectionWork(st: State, step: Step)
    requires Inv(st) && Enabled(st, step) && (step.Enter? || step.Finish? || step.Wake?)
    ensures Work(Section(st, step)) <= Work(st)
    ensures Productive(st, step) ==> Work(Section(st, step)) < Work(st)
  {
    var t := step.t;
    WeightsUpdate(st.threads, t, Outside);
    var threads := st.threads[t := Outside];
    if threads[MASTER].Blocked? {
      WeightsUpdate(threads, MASTER, Blocked(true));
    }
  }

  lemma MoveWork(st: State, step: Step)
    requires Inv(st) && Enabled(st, step) && (step.Enter? || step.Finish? || step.Wake?) && GoesOn(st, step)
    ensures Work(Next(st, step)) <= Work(st)
    ensures Productive(st, step) ==> Work(Next(st, step)) < Work(st)
  {
    SectionKeeps(st, step);
    SectionWork(st, step);
    DecideWork(Section(st, step), step.t);
  }

  lemma WorkShrinks(st: State, step: Step)
    requires Inv(st) && Productive(st, step)
    ensures Work(Next(st, step)) < Work(st)
  {
    match step {
      case Execute(t) => WeightsUpdate(st.threads, t, RunOne(st.threads[t]));
      case Finish(t) => MoveWork(st, step);
      case Wake(t) =>
        if GoesOn(st, step) { MoveWork(st, step); } else { WeightsUpdate(st.threads, t, Blocked(false)); }
    }
  }

  /** The work a step can bring in: checks added, and a wake-up for every thread it may notify. */
  function Supply(step: Step, threads: nat): nat {
    match step
    case Add(checks, _) => 4 * |checks| + threads
    case Interrupt => threads
    case _ => 0
  }

  function Supplied(steps: seq<Step>, threads: nat): nat {
    if steps == [] then 0 else Supply(steps[0], threads) + Supplied(steps[1..], threads)
  }

  /** How many steps of a run are productive. */
  function Useful(st: State, steps: seq<Step>): nat
    requires Inv(st) && IsRun(st, steps)
    decreases |steps|
  {
    if steps == [] then 0
    else
      NextKeeps(st, steps[0]);
      (if Productive(st, steps[0]) then 1 else 0) + Useful(Next(st, steps[0]), steps[1..])
  }

  lemma {:induction false} NudgedWeights(threads: seq<Local>, threads': seq<Local>)
    requires Nudged(threads, threads')
    ensures Weights(threads') <= Weights(threads) + |threads|
  {
    if threads != [] {
      assert Nudged(threads[1..], threads'[1..]);
      NudgedWeights(threads[1..], threads'[1..]);
    }
  }

  /** Steps that are not productive bring in no more work than they supply: workers that enter and threads
      that wake for no reason bring in none. */
  lemma StepWork(st: State, step: Step)
    requires Inv(st) && Enabled(st, step)
    ensures |Next(st, step).threads| == |st.threads|
    ensures Work(Next(st, step)) + (if Productive(st, step) then 1 else 0) <= Work(st) + Supply(step, |st.threads|)
  {
    match step {
      case Execute(t) => WorkShrinks(st, step);
      case Add(checks, who) => NudgedWeights(st.threads, Next(st, step).threads);
      case Interrupt => NudgedWeights(st.threads, Next(st, step).threads);
      case Enter(t) => MoveWork(st, step);
      case Finish(t) => MoveWork(st, step);
      case Wake(t) =>
        if GoesOn(st, step) { MoveWork(st, step); } else { WeightsUpdate(st.threads, t, Blocked(false)); }
    }
  }

  /** Wait terminates.  In any run, however workers enter, wake for no reason and are added to in between,
      productive steps are at most the work there was and what was supplied; and when none is left the
      master has returned. */
  lemma {:induction false} WaitTerminates(st: State, steps: seq<Step>)
    requires Inv(st) && IsRun(st, steps)
    ensures Useful(st, steps) + Work(Run(st, steps)) <= Work(st) + Supplied(steps, |st.threads|)
    ensures (forall step :: !Productive(Run(st, steps), step)) ==>
              Run(st, steps).threads[MASTER] == Outside
    decreases |steps|
  {
    hide Next, Work, Productive, Supply, Enabled;
    if steps == [] {
      if st.threads[MASTER] != Outside { NoDeadlock(st); }
    } else {
      NextKeeps(st, steps[0]);
      StepWork(st, steps[0]);
      WaitTerminates(Next(st, steps[0]), steps[1..]);
    }
  }

  /** Without anything added and without Interrupt the bound is the work there was. */
  lemma {:induction false} NothingSupplied(steps: seq<Step>, threads: nat)
    requires forall i :: 0 <= i < |steps| ==> !steps[i].Add? && !steps[i].Interrupt?
    ensures Supplied(steps, threads) == 0
  {
    if steps != [] { NothingSupplied(steps[1..], threads); }
  }

  // ---------------------------------------------------------------- the object behind the mutex

  /** The shared fields, updated by the sections that hold the mutex. */
  class Queue {
    var queue: seq<bool>
    var nIdle: int
    var nTotal: int
    var fAllOk: bool
    var fQuit: bool
    var nTodo: int
    const nBatchSize: nat

    constructor (batch: nat)
      ensures Value() == Init(0, batch).s
    {
      queue, nIdle, nTotal, fAllOk, fQuit, nTodo := [], 0, 0, true, false, 0;
      nBatchSize := batch;
    }

    function Value(): Shared
      reads this
    {
      Shared(queue, nIdle, nTotal, fAllOk, fQuit, nTodo, nBatchSize)
    }

    /** Pushes the checks one by one; says which workers to notify. */
    method Add(checks: seq<bool>) returns (one: bool, all: bool)
      modifies this
      ensures Value() == old(Value()).(queue := old(queue) + checks, nTodo := old(nTodo) + |checks|)
      ensures one <==> |checks| == 1
      ensures all <==> |checks| > 1
    {
      var i := 0;
      while i < |checks|
        invariant 0 <= i <= |checks|
        invariant Value() == old(Value()).(queue := old(queue) + checks[..i])
      {
        assert checks[..i + 1] == checks[..i] + [checks[i]];
        queue := queue + [checks[i]];
        i := i + 1;
      }
      assert checks[..i] == checks;
      nTodo := nTodo + |checks|;
      one, all := |checks| == 1, |checks| > 1;
    }

    /** The start of a section: settle the last batch, or count the thread in. */
    method Begin(fMaster: bool, nNow: nat, fOk: bool) returns (notify: bool)
      modifies this
      ensures nNow == 0 ==> Value() == old(Value()).(nTotal := old(nTotal) + 1) && !notify
      ensures nNow > 0 ==>
        && Value() == old(Value()).(fAllOk := old(fAllOk) && fOk, nTodo := old(nTodo) - nNow)
        && (notify <==> nTodo == 0 && !fMaster)
    {
      notify := false;
      if nNow != 0 {
        fAllOk := fAllOk && fOk;
        nTodo := nTodo - nNow;
        notify := nTodo == 0 && !fMaster;
      } else {
        nTotal := nTotal + 1;
      }
    }

    /** Swaps a batch off the back of the queue. */
    method Take() returns (vChecks: seq<bool>, fOk: bool)
      requires queue != [] && nTotal >= 0 && nIdle >= 0
      modifies this
      ensures 1 <= |vChecks| == BatchSize(old(Value())) <= |old(queue)|
      ensures vChecks == Reverse(old(queue)[|old(queue)| - |vChecks|..])
      ensures Value() == old(Value()).(queue := old(queue)[..|old(queue)| - |vChecks|])
      ensures fOk == old(fAllOk)
    {
      hide BatchSize, Reverse;
      ghost var q := queue;
      var nNow := BatchSize(Value());
      BatchFits(Value());
      NothingReversed(q);
      vChecks := [];
      var i := 0;
      while i < nNow
        invariant 0 <= i <= nNow <= |q| && |vChecks| == i
        invariant vChecks == Reverse(q[|q| - i..])
        invariant Value() == old(Value()).(queue := q[..|q| - i])
      {
        var back := queue[|queue| - 1];
        ReverseSnoc(q[|q| - i..], q[|q| - i - 1]);
        assert q[|q| - i - 1..] == [q[|q| - i - 1]] + q[|q| - i..];
        vChecks := vChecks + [back];
        queue := queue[..|queue| - 1];
        i := i + 1;
      }
      fOk := fAllOk;
    }

    /** Leaving Loop: the verdict so far; the master starts the next round afresh. */
    method Leave(fMaster: bool) returns (fRet: bool)
      modifies this
      ensures fRet == old(fAllOk)
      ensures Value() == old(Value()).(nTotal := old(nTotal) - 1,
                                       fAllOk := if fMaster then true else old(fAllOk))
    {
      nTotal := nTotal - 1;
      fRet := fAllOk;
      if fMaster { fAllOk := true; }
    }
  }

  lemma NothingReversed(q: seq<bool>)
    ensures q[|q|..] == [] && Reverse([]) == []
  {
  }

  lemma {:induction false} ReverseSnoc(s: seq<bool>, x: bool)
    ensures Reverse([x] + s) == Reverse(s) + [x]
  {
    var xs := [x] + s;
    if s == [] {
      assert xs == [x] && xs[..0] == [];
    } else {
      var n := |s| - 1;
      var front := s[..n];
      ReverseSnoc(front, x);
      assert xs[..n + 1] == [x] + front && xs[n + 1] == s[n];
      assert Reverse(xs) == [s[n]] + Reverse([x] + front);
    }
  }

  /** Runs a batch outside the mutex, skipping checks after the first failure. */
  method ExecuteBatch(vChecks: seq<bool>, start: bool) returns (fOk: bool)
    ensures fOk <==> start && All(vChecks)
  {
    fOk := start;
    var i := 0;
    while i < |vChecks|
      invariant 0 <= i <= |vChecks|
      invariant fOk <==> start && All(vChecks[..i])
    {
      AllConcat(vChecks[..i], [vChecks[i]]);
      assert vChecks[..i + 1] == vChecks[..i] + [vChecks[i]];
      if fOk { fOk := vChecks[i]; }
      i := i + 1;
    }
    assert vChecks[..i] == vChecks;
  }
}
