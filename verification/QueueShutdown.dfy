/** Shutting the check queue down: when Interrupt can leave a worker blocked although there is
    nothing left to do. */
module QueueShutdown {
  import opened CheckQueue

  /** A worker left behind: quitting, nothing to do, and no notification on its way to it. */
  predicate Stranded(st: State, t: nat) {
    && 0 < t < |st.threads| && st.threads[t] == Blocked(false)
    && st.s.fQuit && st.s.nTodo == 0
  }

  predicate AddFree(steps: seq<Step>) {
    forall i :: 0 <= i < |steps| ==> !steps[i].Add?
  }

  lemma Prepend(st: State, step: Step, rest: seq<Step>)
    requires Inv(st) && Enabled(st, step) && Inv(Next(st, step)) && IsRun(Next(st, step), rest)
    ensures IsRun(st, [step] + rest) && Run(st, [step] + rest) == Run(Next(st, step), rest)
    ensures !step.Add? && AddFree(rest) ==> AddFree([step] + rest)
  {
    hide Inv, Enabled, Next;
    assert ([step] + rest)[1..] == rest;
  }

  lemma NoSteps(st: State)
    requires Inv(st)
    ensures IsRun(st, []) && Run(st, []) == st && AddFree([])
  {
  }

  // ---------------------------------------------------------------- nothing outstanding

  /** Quitting with nothing to do, and every blocked worker has been notified. */
  predicate Released(st: State) {
    && st.s.fQuit && st.s.nTodo == 0
    && forall t :: 0 < t < |st.threads| && st.threads[t].Blocked? ==> st.threads[t].notified
  }

  lemma IdleHasNoWork(st: State)
    requires Inv(st) && st.s.nTodo == 0
    ensures st.s.queue == [] && forall t :: 0 <= t < |st.threads| ==> !st.threads[t].Working?
  {
    forall t | 0 <= t < |st.threads| ensures !st.threads[t].Working? {
      InHandAtLeast(st.threads, t);
    }
  }

  lemma ReleasedKeeps(st: State, step: Step)
    requires Inv(st) && Released(st) && Enabled(st, step) && !step.Add?
    ensures Released(Next(st, step)) && |Next(st, step).threads| == |st.threads|
    ensures step.Wake? ==> Next(st, step).threads[step.t] == Outside
  {
    IdleHasNoWork(st);
  }

  // ---------------------------------------------------------------- everything in the hands of one worker

  /** The only worker has all that is outstanding, and the master none of it. */
  predicate Alone(st: State) {
    && st.s.fQuit && |st.threads| == 2 && st.s.queue == []
    && !st.threads[MASTER].Working? && st.threads[1].Working?
  }

  lemma AloneHolds(st: State)
    requires Inv(st) && Alone(st)
    ensures st.s.nTodo == st.threads[1].now > 0
  {
    var workers := st.threads[1..];
    assert workers[0] == st.threads[1] && workers[1..] == [];
    assert InHand(workers) == st.threads[1].now;
    assert InHand(st.threads) == InHand(workers);
  }

  lemma AloneKeeps(st: State, step: Step)
    requires Inv(st) && Alone(st) && Enabled(st, step) && !step.Add?
    ensures Alone(Next(st, step)) || Released(Next(st, step))
    ensures |Next(st, step).threads| == |st.threads|
  {
    AloneHolds(st);
  }

  /** Whatever the threads do, no worker is left behind. */
  predicate Safe(st: State) { Released(st) || Alone(st) || |st.threads| == 1 }

  lemma SafeKeeps(st: State, step: Step)
    requires Inv(st) && Safe(st) && Enabled(st, step) && !step.Add?
    ensures Safe(Next(st, step))
  {
    hide Inv, Released, Alone;
    ThreadsStay(st, step);
    if Released(st) { ReleasedKeeps(st, step); } else if Alone(st) { AloneKeeps(st, step); }
  }

  lemma ThreadsStay(st: State, step: Step)
    requires Inv(st) && Enabled(st, step)
    ensures |Next(st, step).threads| == |st.threads|
  {
    hide Inv, BatchSize, Reverse;
  }

  lemma SafeNow(st: State, t: nat)
    requires Inv(st) && Safe(st)
    ensures !Stranded(st, t)
  {
    if Alone(st) { AloneHolds(st); }
  }

  lemma {:induction false} SafeRuns(st: State, steps: seq<Step>, t: nat)
    requires Inv(st) && Safe(st) && IsRun(st, steps) && AddFree(steps)
    ensures !Stranded(Run(st, steps), t)
    decreases |steps|
  {
    hide Inv, Safe, Next, Enabled, Stranded;
    if steps == [] {
      SafeNow(st, t);
    } else {
      NextKeeps(st, steps[0]);
      SafeKeeps(st, steps[0]);
      SafeRuns(Next(st, steps[0]), steps[1..], t);
    }
  }

  // ---------------------------------------------------------------- leaving a worker behind

  /** The next step of a thread with a batch in hand. */
  function Onward(l: Local, t: nat): Step
    requires l.Working?
  {
    if l.rest == [] then Finish(t) else Execute(t)
  }

  lemma OnwardShrinks(st: State, v: nat)
    requires Inv(st) && v < |st.threads| && st.threads[v].Working?
    ensures var step := Onward(st.threads[v], v);
      Enabled(st, step) && Inv(Next(st, step)) && Work(Next(st, step)) < Work(st)
  {
    hide Inv, Work;
    var step := Onward(st.threads[v], v);
    NextKeeps(st, step);
    WorkShrinks(st, step);
  }

  /** Others going on leave a blocked worker as it is. */
  lemma OthersGoOn(st: State, t: nat, v: nat)
    requires Inv(st) && 0 < t < |st.threads| && v < |st.threads| && v != t && st.threads[v].Working? && st.s.queue == []
    ensures var st' := Next(st, Onward(st.threads[v], v));
      st'.threads[t] == st.threads[t] && st'.s.queue == [] && st'.s.fQuit == st.s.fQuit && |st'.threads| == |st.threads|
  {
    hide Inv, Truthful, Batches, NoLostWakeup;
  }

  /** With a worker blocked and the queue empty, the others finish what is outstanding and only the
      master is told. */
  lemma {:induction false} Drain(st: State, t: nat) returns (steps: seq<Step>)
    requires Inv(st) && st.s.fQuit && st.s.queue == [] && 0 < t < |st.threads| && st.threads[t] == Blocked(false)
    ensures IsRun(st, steps) && AddFree(steps) && Stranded(Run(st, steps), t)
    decreases Work(st)
  {
    if st.s.nTodo == 0 {
      NoSteps(st);
      steps := [];
    } else {
      SomeoneWorks(st.threads);
      hide Inv, Next, Enabled, Work;
      var v :| 0 <= v < |st.threads| && st.threads[v].Working? && st.threads[v].now > 0;
      OnwardShrinks(st, v);
      OthersGoOn(st, t, v);
      var step := Onward(st.threads[v], v);
      var rest := Drain(Next(st, step), t);
      Prepend(st, step, rest);
      steps := [step] + rest;
    }
  }

  /** Another thread has work in hand, so a worker that looks now blocks. */
  lemma Blocks(st: State, t: nat, u: nat, step: Step)
    requires Inv(st) && st.s.queue == [] && 0 < t < |st.threads| && u < |st.threads| && u != t && st.threads[u].Working?
    requires step ==
      (match st.threads[t] case Outside => Enter(t) case Blocked(_) => Wake(t) case Working(_, _, _) => Finish(t))
    requires st.threads[t].Working? ==> st.threads[t].rest == []
    ensures Enabled(st, step)
    ensures var st' := Next(st, step);
      st'.threads[t] == Blocked(false) && st'.s.queue == [] && st'.s.fQuit == st.s.fQuit
        && |st'.threads| == |st.threads|
  {
    InHandAtLeast(st.threads[t := Outside], u);
    CountsUpdate(st.threads, t, Outside);
    hide InHand, Inside, Idle, Truthful, NoLostWakeup;
  }

  lemma {:induction false} Strand(st: State, t: nat, u: nat) returns (steps: seq<Step>)
    requires Inv(st) && st.s.fQuit && st.s.queue == []
    requires 0 < t < |st.threads| && u < |st.threads| && u != t && st.threads[u].Working?
    ensures IsRun(st, steps) && AddFree(steps) && Stranded(Run(st, steps), t)
    decreases Work(st)
  {
    hide Inv, Next, Enabled, Work;
    var step, rest;
    if st.threads[t].Working? && st.threads[t].rest != [] {
      step := Execute(t);
      OnwardShrinks(st, t);
      ExecuteLeaves(st, t);
      rest := Strand(Next(st, step), t, u);
    } else {
      step := match st.threads[t] case Outside => Enter(t) case Blocked(_) => Wake(t)
        case Working(_, _, _) => Finish(t);
      Blocks(st, t, u, step);
      NextKeeps(st, step);
      rest := Drain(Next(st, step), t);
    }
    Prepend(st, step, rest);
    steps := [step] + rest;
  }

  lemma ExecuteLeaves(st: State, t: nat)
    requires Inv(st) && Enabled(st, Execute(t))
    ensures var st' := Next(st, Execute(t));
      && st'.s == st.s && |st'.threads| == |st.threads| && st'.threads[t].Working?
      && forall v :: 0 <= v < |st.threads| && v != t ==> st'.threads[v] == st.threads[v]
  {
    hide Inv;
  }

  /** The master can take everything that is queued. */
  lemma {:induction false} Empty(st: State) returns (steps: seq<Step>)
    requires Inv(st) && st.s.fQuit && |st.threads| > 1 && !st.threads[MASTER].Blocked?
    requires st.s.queue != [] || st.threads[MASTER].Working?
    ensures IsRun(st, steps) && AddFree(steps) && Stranded(Run(st, steps), 1)
    decreases if st.threads[MASTER].Working? then 0 else 1, Work(st)
  {
    hide Inv, Next, Enabled, Work, Stranded;
    if st.s.queue == [] {
      steps := Strand(st, 1, MASTER);
    } else {
      var step := if st.threads[MASTER].Working? then Onward(st.threads[MASTER], MASTER) else Enter(MASTER);
      MasterTakes(st, step);
      NextKeeps(st, step);
      if st.threads[MASTER].Working? { OnwardShrinks(st, MASTER); }
      var rest := Empty(Next(st, step));
      Prepend(st, step, rest);
      steps := [step] + rest;
    }
  }

  lemma MasterTakes(st: State, step: Step)
    requires Inv(st) && st.s.queue != [] && !st.threads[MASTER].Blocked?
    requires step == if st.threads[MASTER].Working? then Onward(st.threads[MASTER], MASTER) else Enter(MASTER)
    ensures Enabled(st, step)
    ensures var st' := Next(st, step);
      st'.threads[MASTER].Working? && st'.s.fQuit == st.s.fQuit && |st'.threads| == |st.threads|
  {
    hide Truthful, Batches, InHand, Inside, Idle, BatchSize, Reverse;
  }

  // ---------------------------------------------------------------- the exact condition

  /** Checks are outstanding and some thread other than a worker can have the last of them: there
      are two workers, or the master has some in hand or can still take some. */
  predicate CanStrand(st: State) {
    && st.s.nTodo > 0 && |st.threads| > 1
    && (|st.threads| > 2 || st.s.queue != [] || st.threads[MASTER].Working?)
  }

  /** Some way the threads can go on, without checks being added, leaves a worker behind. */
  ghost predicate Strands(st: State)
    requires Inv(st)
  {
    exists steps, t :: IsRun(st, steps) && AddFree(steps) && Stranded(Run(st, steps), t)
  }

  lemma AfterInterrupt(st: State)
    requires Inv(st)
    ensures Inv(Next(st, Interrupt))
    ensures var st' := Next(st, Interrupt);
      && st'.s == st.s.(fQuit := true) && |st'.threads| == |st.threads|
      && (forall t :: 0 <= t < |st.threads| ==>
            st'.threads[t] == if st.threads[t].Blocked? then Blocked(true) else st.threads[t])
  {
    NextKeeps(st, Interrupt);
    hide Inv;
  }

  /** With the queue empty someone has the work, and someone else is a worker. */
  lemma TwoSides(st: State) returns (t: nat, u: nat)
    requires Inv(st) && CanStrand(st) && st.s.queue == []
    ensures 0 < t < |st.threads| && u < |st.threads| && u != t && st.threads[u].Working?
  {
    SomeoneWorks(st.threads);
    u :| 0 <= u < |st.threads| && st.threads[u].Working? && st.threads[u].now > 0;
    if st.threads[MASTER].Working? { u := MASTER; }
    t := if u == 1 then 2 else 1;
  }

  /** Interrupt can leave a worker behind exactly if checks are outstanding that some thread other
      than a lone worker can be the last to hold.  In particular it never does with nothing
      outstanding, and always can with a worker blocked and checks outstanding. */
  lemma InterruptStrandsIff(st: State)
    requires Inv(st)
    ensures Inv(Next(st, Interrupt)) && (Strands(Next(st, Interrupt)) <==> CanStrand(st))
  {
    AfterInterrupt(st);
    var st' := Next(st, Interrupt);
    if CanStrand(st) {
      StrandSomehow(st');
    } else {
      assert Safe(st') by { CannotStrand(st, st'); }
      forall steps, t | IsRun(st', steps) && AddFree(steps) ensures !Stranded(Run(st', steps), t) {
        SafeRuns(st', steps, t);
      }
    }
  }

  lemma CannotStrand(st: State, st': State)
    requires Inv(st) && !CanStrand(st) && Inv(st') && st'.s == st.s.(fQuit := true) && |st'.threads| == |st.threads|
    requires forall t :: 0 <= t < |st.threads| ==>
      st'.threads[t] == if st.threads[t].Blocked? then Blocked(true) else st.threads[t]
    ensures Safe(st')
  {
    if st.s.nTodo > 0 && |st.threads| == 2 {
      SomeoneWorks(st.threads);
      var u :| 0 <= u < |st.threads| && st.threads[u].Working? && st.threads[u].now > 0;
      assert u == 1;
    }
  }

  lemma StrandSomehow(st: State)
    requires Inv(st) && st.s.fQuit && CanStrand(st)
    ensures Strands(st)
  {
    if st.s.queue == [] {
      var t, u := TwoSides(st);
      var steps := Strand(st, t, u);
    } else {
      var steps := Empty(st);
    }
  }

  /** A blocked worker and checks outstanding are enough. */
  lemma BlockedCanStrand(st: State, t: nat)
    requires Inv(st) && 0 < t < |st.threads| && st.threads[t].Blocked? && st.s.nTodo > 0
    ensures CanStrand(st)
  {
    if |st.threads| == 2 && st.s.queue == [] {
      SomeoneWorks(st.threads);
      var u :| 0 <= u < |st.threads| && st.threads[u].Working? && st.threads[u].now > 0;
      assert u == MASTER;
    }
  }

  /** It happens: a check is added and Interrupt comes before it is done. */
  lemma InterruptStrands(threads: nat, batch: nat, check: bool)
    requires threads > 1
    ensures Inv(Init(threads, batch)) && IsRun(Init(threads, batch), [Add([check], 0), Interrupt])
    ensures Strands(Run(Init(threads, batch), [Add([check], 0), Interrupt]))
  {
    InitInv(threads, batch);
    var st := Init(threads, batch);
    NextKeeps(st, Add([check], 0));
    var busy := Next(st, Add([check], 0));
    InterruptStrandsIff(busy);
    assert CanStrand(busy);
    hide Inv, Next;
    NoSteps(Next(busy, Interrupt));
    Prepend(busy, Interrupt, []);
    Prepend(st, Add([check], 0), [Interrupt]);
    assert [Add([check], 0)] + [Interrupt] == [Add([check], 0), Interrupt];
    assert [Interrupt] + [] == [Interrupt];
  }
}
