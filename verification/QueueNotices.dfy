/** What each section of the check queue does to the threads and to the queue, and why work is noticed:
    while something is queued, a worker in the loop is at it or on its way. */
module QueueNotices {
  import opened Arithmetic
  import opened CheckQueue

  // ---------------------------------------------------------------- taking a batch

  /** The largest batch that leaves as much again for every other thread, counting the idle ones twice, and
      is no larger than allowed; but never less than one check. */
  lemma BatchIs(s: Shared, n: nat)
    requires s.nTotal >= 0 && s.nIdle >= 0
    ensures BatchSize(s) >= 1
    ensures BatchSize(s) > 1 ==>
      BatchSize(s) <= s.nBatchSize && BatchSize(s) * (s.nTotal + s.nIdle + 1) <= |s.queue|
    ensures n <= s.nBatchSize && n * (s.nTotal + s.nIdle + 1) <= |s.queue| ==> n <= BatchSize(s)
  {
    var q, d := |s.queue|, s.nTotal + s.nIdle + 1;
    assert q == q / d * d + q % d;
    if n > q / d { MultiplyGrows(q / d + 1, n, d); Distribute(q / d, 1, d); }
    if BatchSize(s) > 1 { MultiplyGrows(BatchSize(s), q / d, d); }
  }

  lemma {:induction false} ReverseAt(s: seq<bool>, i: nat)
    requires i < |s|
    ensures |Reverse(s)| == |s| && Reverse(s)[i] == s[|s| - 1 - i]
  {
    var n := |s| - 1;
    ReverseAll(s);
    if i > 0 { ReverseAt(s[..n], i - 1); }
  }

  /** The checks are taken from the back, the newest first, to be run in that order; with a failure on
      record they are not run at all. */
  predicate Took(st: State, st': State, t: nat, n: int) {
    && t < |st'.threads| && st'.threads[t].Working? && st'.threads[t].fOk == st.s.fAllOk
    && st'.threads[t].now == |st'.threads[t].rest| == n <= |st.s.queue|
    && st'.s.queue == st.s.queue[..|st.s.queue| - n]
    && forall i :: 0 <= i < n ==> st'.threads[t].rest[i] == st.s.queue[|st.s.queue| - 1 - i]
  }

  lemma DecideTakes(st: State, t: nat)
    requires SectionInv(st, t) && st.s.queue != []
    ensures BatchSize(st.s) <= |st.s.queue| && Took(st, Decide(st, t), t, BatchSize(st.s))
  {
    BatchFits(st.s);
    var rest := st.s.queue[|st.s.queue| - BatchSize(st.s)..];
    ReverseAll(rest);
    forall i | 0 <= i < |rest| ensures |Reverse(rest)| == |rest| && Reverse(rest)[i] == rest[|rest| - 1 - i] {
      ReverseAt(rest, i);
    }
  }

  // ---------------------------------------------------------------- notifications

  /** One check notifies one worker that is waiting, several notify them all; the master never. */
  lemma AddEffect(st: State, checks: seq<bool>, who: nat)
    requires Inv(st) && Enabled(st, Add(checks, who))
    ensures var st' := Next(st, Add(checks, who));
      && st'.s == st.s.(queue := st.s.queue + checks, nTodo := st.s.nTodo + |checks|)
      && Nudged(st.threads, st'.threads) && st'.threads[MASTER] == st.threads[MASTER]
      && (|checks| == 0 ==> st'.threads == st.threads)
      && (|checks| == 1 ==> Chosen(st.threads, who))
      && (|checks| == 1 && 0 < who < |st.threads| && st.threads[who].Blocked? ==>
            st'.threads == st.threads[who := Blocked(true)])
      && (|checks| > 1 ==> forall t :: 0 < t < |st.threads| ==> st'.threads[t] != Blocked(false))
  {
  }

  lemma InterruptEffect(st: State)
    requires Inv(st)
    ensures var st' := Next(st, Interrupt);
      && st'.s == st.s.(fQuit := true) && st'.added == st.added && Nudged(st.threads, st'.threads)
      && forall t :: 0 <= t < |st.threads| ==> st'.threads[t] != Blocked(false)
  {
  }

  // ---------------------------------------------------------------- work is noticed

  predicate Attends(l: Local) { l.Working? || l == Blocked(true) }

  /** If anything is queued and a worker is in the loop, some worker is at work or has been notified. */
  predicate Noticed(st: State) {
    st.s.queue != [] && (exists t :: 0 < t < |st.threads| && st.threads[t] != Outside) ==>
      exists t :: 0 < t < |st.threads| && Attends(st.threads[t])
  }

  lemma StartsNoticed(threads: nat, batch: nat)
    ensures Noticed(Init(threads, batch))
  {
  }

  lemma NoticedNext(st: State, step: Step)
    requires Inv(st) && Enabled(st, step) && Noticed(st)
    ensures Noticed(Next(st, step))
  {
    hide Inv;
    match step {
      case Execute(t) => ExecuteNoticed(st, t);
      case Add(checks, who) => AddNoticed(st, checks, who);
      case Interrupt => InterruptNoticed(st);
      case Enter(t) => MoveNoticed(st, step);
      case Finish(t) => MoveNoticed(st, step);
      case Wake(t) => MoveNoticed(st, step);
    }
  }

  lemma ExecuteNoticed(st: State, t: nat)
    requires Inv(st) && Enabled(st, Execute(t)) && Noticed(st)
    ensures Noticed(Next(st, Execute(t)))
  {
    hide Inv;
    Unmoved(st, Next(st, Execute(t)));
  }

  /** Noticing survives when every thread stays as attentive as it was and none enters. */
  lemma Unmoved(st: State, st': State)
    requires Noticed(st) && |st'.threads| == |st.threads| && (st'.s.queue != [] ==> st.s.queue != [])
    requires forall u :: 0 < u < |st.threads| ==> (Attends(st.threads[u]) ==> Attends(st'.threads[u]))
    requires forall u :: 0 < u < |st.threads| ==> (st'.threads[u] != Outside ==> st.threads[u] != Outside)
    ensures Noticed(st')
  {
    if st'.s.queue != [] && exists t :: 0 < t < |st'.threads| && st'.threads[t] != Outside {
      var t :| 0 < t < |st'.threads| && st'.threads[t] != Outside;
      assert st.threads[t] != Outside;
      var u :| 0 < u < |st.threads| && Attends(st.threads[u]);
      assert Attends(st'.threads[u]);
    }
  }

  lemma AddNoticed(st: State, checks: seq<bool>, who: nat)
    requires Inv(st) && Enabled(st, Add(checks, who)) && Noticed(st)
    ensures Noticed(Next(st, Add(checks, who)))
  {
    hide Inv, Attends;
    var st' := Next(st, Add(checks, who));
    AddEffect(st, checks, who);
    if checks == [] {
      assert st'.threads == st.threads;
    } else if t :| 0 < t < |st'.threads| && st'.threads[t] != Outside {
      assert st.threads[t] != Outside;
      var u: nat := if |checks| == 1 && st.threads[t] == Blocked(false) then who else t;
      AttendsAfter(st, st', checks, who, t, u);
    }
  }

  lemma AttendsAfter(st: State, st': State, checks: seq<bool>, who: nat, t: nat, u: nat)
    requires Inv(st) && Enabled(st, Add(checks, who)) && st' == Next(st, Add(checks, who)) && checks != []
    requires 0 < t < |st.threads| && st.threads[t] != Outside
    requires u == if |checks| == 1 && st.threads[t] == Blocked(false) then who else t
    ensures 0 < u < |st'.threads| && Attends(st'.threads[u])
  {
    hide Inv;
    AddEffect(st, checks, who);
  }

  lemma InterruptNoticed(st: State)
    requires Inv(st) && Noticed(st)
    ensures Noticed(Next(st, Interrupt))
  {
    hide Inv;
    InterruptEffect(st);
    Unmoved(st, Next(st, Interrupt));
  }

  /** A thread that goes on with something queued works; otherwise the queue is empty. */
  lemma MoveNoticed(st: State, step: Step)
    requires Inv(st) && (step.Enter? || step.Finish? || step.Wake?) && Enabled(st, step) && Noticed(st)
    ensures Noticed(Next(st, step))
  {
    hide Inv, SectionInv;
    var st', t := Next(st, step), step.t;
    if GoesOn(st, step) {
      SectionKeeps(st, step);
      DecideKeeps(Section(st, step), t);
      if st'.s.queue != [] { MovedOn(st, step); }
    }
  }

  lemma MovedOn(st: State, step: Step)
    requires Inv(st) && (step.Enter? || step.Finish? || step.Wake?) && Enabled(st, step) && Noticed(st)
    requires GoesOn(st, step) && Next(st, step).s.queue != []
    ensures Noticed(Next(st, step))
  {
    hide Inv, SectionInv, BatchSize, Reverse;
    var st', t := Next(st, step), step.t;
    SectionKeeps(st, step);
    DecideKeeps(Section(st, step), t);
    assert st'.threads[t].Working?;
    if t == MASTER { Unmoved(st, st'); }
  }

  lemma {:induction false} WorkIsNoticed(st: State, steps: seq<Step>)
    requires Inv(st) && IsRun(st, steps) && Noticed(st)
    ensures Inv(Run(st, steps)) && Noticed(Run(st, steps))
    decreases |steps|
  {
    hide Next, Noticed, Inv, Enabled;
    if steps != [] {
      NextKeeps(st, steps[0]);
      NoticedNext(st, steps[0]);
      WorkIsNoticed(Next(st, steps[0]), steps[1..]);
    }
  }
}
