/** What each call of the address manager changes and what it leaves alone: who gets which slot, who loses
    one and why, and what the records say afterwards. */
module AddrManEffects {
  import opened AddrManModel
  import opened AddrManOps
  import opened AddrManCalls
  import opened AddrManRuns

  const FOUR_HOURS := 14_400

  // ---------------------------------------------------------------- Good

  /** A call for an endpoint that is not known only notes the time; otherwise only the record of that entry
      changes, to a success now without failed attempts since. */
  lemma GoodRecords(env: Env, m: Manager, s: Service, testFirst: bool, time: int)
    requires Inv(env, m) && time > 0
    ensures var m' := Good(env, m, s, testFirst, time);
      && m'.mapInfo.Keys <= m.mapInfo.Keys
      && (!Known(m, s) ==> m' == m.(nLastGood := time))
      && (forall id :: id in m'.mapInfo ==>
            if Known(m, s) && id == m.mapAddr[s.ip]
            then SameRecord(m.mapInfo[id].(nLastSuccess := time, nLastTry := time, nAttempts := 0), m'.mapInfo[id])
            else SameRecord(m.mapInfo[id], m'.mapInfo[id]))
  {
    hide Core, TriedDrift, NewDrift, MakeTried, OwnSlots, TriedSlot;
    if Known(m, s) {
      var id := m.mapAddr[s.ip];
      var praised := Praised(m.mapInfo[id], time);
      TimesOf(env, m, id);
      TouchStays(env, m, id, praised);
      LastGoodIrrelevant(env, Touch(m, id, praised), time);
      var m1 := Touch(m, id, praised).(nLastGood := time);
      if !m.mapInfo[id].fInTried && OwnSlots(env, m1, id) != {}
         && !(testFirst && TriedSlot(env, m.nKey, s) in m.triedTable) {
        MakeTriedRecords(env, m1, id);
      }
    }
  }

  lemma MakeTriedRecords(env: Env, m: Manager, id: int)
    requires Core(env, m, {}) && id in m.mapInfo && !m.mapInfo[id].fInTried
    ensures var m' := MakeTried(env, m, id);
      m'.mapInfo.Keys <= m.mapInfo.Keys && forall j :: j in m'.mapInfo ==> SameRecord(m.mapInfo[j], m'.mapInfo[j])
  {
    hide Core, MakeRoom, TriedSlot, TriedDrift, NewDrift;
    MakeRoomKeeps(env, m, id);
  }

  /** A newcomer joins the pending collisions exactly if evictions are to be tested first, another entry holds
      its tried slot and fewer than ten are pending. */
  lemma GoodCollides(env: Env, m: Manager, s: Service, testFirst: bool, time: int)
    requires Inv(env, m) && time > 0
    ensures var m' := Good(env, m, s, testFirst, time);
      var joins := testFirst && Known(m, s) && !m.mapInfo[m.mapAddr[s.ip]].fInTried
        && TriedSlot(env, m.nKey, s) in m.triedTable && |m.collisions| < 10;
      m'.collisions == m.collisions + if joins then {m.mapAddr[s.ip]} else {}
  {
    hide Core, TriedDrift, NewDrift, MakeTried, OwnSlots, TriedSlot;
    if Known(m, s) {
      var id := m.mapAddr[s.ip];
      var praised := Praised(m.mapInfo[id], time);
      TimesOf(env, m, id);
      TouchStays(env, m, id, praised);
      LastGoodIrrelevant(env, Touch(m, id, praised), time);
      var m1 := Touch(m, id, praised).(nLastGood := time);
      WhereIs(env, m1, id);
      if !m.mapInfo[id].fInTried && !(testFirst && TriedSlot(env, m.nKey, s) in m.triedTable) {
        MakeTriedKeeps(env, m1, id);
      }
    }
  }

  // ---------------------------------------------------------------- ResolveCollisions

  /** A tried entry that failed its test: no success for four hours, but an attempt in that time, more than a
      minute ago when it is looked at. */
  predicate FailedTest(rival: Info, start: int, check: int) {
    start - rival.nLastSuccess >= FOUR_HOURS && start - rival.nLastTry < FOUR_HOURS && check - rival.nLastTry > 60
  }

  /** What becomes of a pending newcomer: it is dropped if it is no longer known or valid, or if the entry in its
      slot succeeded in the last four hours; it gets the slot if that is free, or if the entry there failed its
      test; otherwise it waits. */
  lemma ResolveEffect(env: Env, m: Manager, id: nat, clock: Clock)
    requires Inv(env, m) && clock.start > 0 && clock.good(id) > 0
    ensures id !in m.mapInfo || !env.valid(m.mapInfo[id].service.ip) ==> ResolveOne(env, m, id, clock) == (m, true)
    ensures id in m.mapInfo && env.valid(m.mapInfo[id].service.ip) ==>
      var (m', settled) := ResolveOne(env, m, id, clock);
      var slot := TriedSlot(env, m.nKey, m.mapInfo[id].service);
      && (slot !in m.triedTable ==> settled && Moves(env, m, id, clock.start, m'))
      && (slot in m.triedTable ==>
            && m.triedTable[slot] in m.mapInfo
            && var rival := m.mapInfo[m.triedTable[slot]];
            && (clock.start - rival.nLastSuccess < FOUR_HOURS ==> settled && m' == m)
            && (FailedTest(rival, clock.start, clock.check(id)) ==> settled && Moves(env, m, id, clock.good(id), m'))
            && (clock.start - rival.nLastSuccess >= FOUR_HOURS && !FailedTest(rival, clock.start, clock.check(id)) ==>
                  !settled && m' == m))
  {
    hide Core, TriedDrift, NewDrift, Good, TriedSlot;
    if id in m.mapInfo {
      OwnKnown(env, m, id);
      MovesTo(env, m, id, clock.start);
      MovesTo(env, m, id, clock.good(id));
    }
  }

  /** The newcomer holds its tried slot, praised at `time`; no other slot of the tried table changes hands, and
      no other record changes. */
  ghost predicate Moves(env: Env, m: Manager, id: int, time: int, m': Manager)
    requires id in m.mapInfo
  {
    && id in m'.mapInfo && m'.mapInfo[id].fInTried
    && m'.triedTable == m.triedTable[TriedSlot(env, m.nKey, m.mapInfo[id].service) := id]
    && m'.mapInfo.Keys <= m.mapInfo.Keys && m'.nKey == m.nKey
    && (forall j :: j in m'.mapInfo && j != id ==> SameRecord(m.mapInfo[j], m'.mapInfo[j]))
    && SameRecord(m.mapInfo[id].(nLastSuccess := time, nLastTry := time, nAttempts := 0), m'.mapInfo[id])
  }

  lemma OwnKnown(env: Env, m: Manager, id: int)
    requires Inv(env, m) && id in m.mapInfo
    ensures Known(m, m.mapInfo[id].service) && m.mapAddr[m.mapInfo[id].service.ip] == id
    ensures var slot := TriedSlot(env, m.nKey, m.mapInfo[id].service);
      slot in m.triedTable ==> m.triedTable[slot] in m.mapInfo
  {
    hide Shuffled, NewPlaced, Referenced, Anchored, Timed, TriedDrift, NewDrift, TriedSlot;
  }

  lemma MovesTo(env: Env, m: Manager, id: int, time: int)
    requires Inv(env, m) && id in m.mapInfo && time > 0
    ensures Moves(env, m, id, time, Good(env, m, m.mapInfo[id].service, false, time))
  {
    hide Inv, Good, TriedSlot;
    var s := m.mapInfo[id].service;
    OwnKnown(env, m, id);
    GoodEffect(env, m, s, false, time);
    GoodRecords(env, m, s, false, time);
    GoodKeeps(env, m, s, false, time);
  }

  /** Why the holder of a tried slot lost it: it failed its test when some pending newcomer for that slot was
      looked at. */
  ghost predicate Outdone(env: Env, m: Manager, slot: Slot, pending: set<nat>, clock: Clock)
    requires slot in m.triedTable && m.triedTable[slot] in m.mapInfo
  {
    exists id :: id in pending && id in m.mapInfo && TriedSlot(env, m.nKey, m.mapInfo[id].service) == slot
                 && FailedTest(m.mapInfo[m.triedTable[slot]], clock.start, clock.check(id))
  }

  /** Every tried slot stays with its holder, unless that failed its test. */
  ghost predicate Fair(env: Env, m: Manager, m': Manager, pending: set<nat>, clock: Clock) {
    forall slot :: slot in m.triedTable ==>
      && slot in m'.triedTable && m.triedTable[slot] in m.mapInfo
      && (m'.triedTable[slot] == m.triedTable[slot] || Outdone(env, m, slot, pending, clock))
  }

  /** A record is as it was, or shows the last attempt to be a success. */
  predicate Praiseworthy(a: Info, b: Info) {
    a.service == b.service
    && ((b.nLastSuccess == a.nLastSuccess && b.nLastTry == a.nLastTry) || b.nLastSuccess == b.nLastTry)
  }

  lemma OneFair(env: Env, m: Manager, id: nat, clock: Clock, m2: Manager)
    requires Inv(env, m) && clock.start > 0 && clock.good(id) > 0
    requires m2 == Settle(ResolveOne(env, m, id, clock).0, id, ResolveOne(env, m, id, clock).1)
    ensures Fair(env, m, m2, {id}, clock) && m2.nKey == m.nKey && m2.mapInfo.Keys <= m.mapInfo.Keys
    ensures forall j :: j in m2.mapInfo ==> Praiseworthy(m.mapInfo[j], m2.mapInfo[j])
  {
    hide Inv, ResolveOne, TriedSlot;
    ResolveEffect(env, m, id, clock);
    Holders(env, m);
  }

  lemma Holders(env: Env, m: Manager)
    requires Inv(env, m)
    ensures forall slot :: slot in m.triedTable ==> m.triedTable[slot] in m.mapInfo
  {
  }

  /** An entry whose last attempt is a success has not failed a test. */
  lemma FairThen(env: Env, m: Manager, m2: Manager, m3: Manager, id: nat, rest: set<nat>, clock: Clock)
    requires Fair(env, m, m2, {id}, clock) && Fair(env, m2, m3, rest, clock)
    requires m2.nKey == m.nKey && m2.mapInfo.Keys <= m.mapInfo.Keys
    requires forall j :: j in m2.mapInfo ==> Praiseworthy(m.mapInfo[j], m2.mapInfo[j])
    ensures Fair(env, m, m3, rest + {id}, clock)
  {
    hide TriedSlot;
    forall slot | slot in m.triedTable
      ensures slot in m3.triedTable && m.triedTable[slot] in m.mapInfo
      ensures m3.triedTable[slot] == m.triedTable[slot] || Outdone(env, m, slot, rest + {id}, clock)
    {
      if m2.triedTable[slot] != m.triedTable[slot] {
        var j :| j in {id} && j in m.mapInfo && TriedSlot(env, m.nKey, m.mapInfo[j].service) == slot
                 && FailedTest(m.mapInfo[m.triedTable[slot]], clock.start, clock.check(j));
        assert j in rest + {id};
      } else if m3.triedTable[slot] != m2.triedTable[slot] {
        var j :| j in rest && j in m2.mapInfo && TriedSlot(env, m2.nKey, m2.mapInfo[j].service) == slot
                 && FailedTest(m2.mapInfo[m2.triedTable[slot]], clock.start, clock.check(j));
        assert j in rest + {id} && m.mapInfo[j].service == m2.mapInfo[j].service;
      }
    }
  }

  /** Over a whole call, whatever is pending: a tried entry loses its slot only to a newcomer for that slot, and
      only if it failed its test.  In particular none that succeeded in the last four hours does. */
  lemma {:induction false} ResolveIsFair(env: Env, m: Manager, pending: set<nat>, clock: Clock)
    requires Inv(env, m) && Positive(clock, pending)
    ensures Fair(env, m, Resolve(env, m, pending, clock), pending, clock)
    decreases pending
  {
    hide Inv, ResolveOne, TriedSlot, Fair;
    if pending == {} {
      NobodyMoved(env, m, clock);
    } else {
      var id := Least(pending);
      var (m1, settled) := ResolveOne(env, m, id, clock);
      ResolveOneKeeps(env, m, id, clock, m1, settled);
      var m2 := Settle(m1, id, settled);
      OneFair(env, m, id, clock, m2);
      ResolveIsFair(env, m2, pending - {id}, clock);
      FairThen(env, m, m2, Resolve(env, m2, pending - {id}, clock), id, pending - {id}, clock);
      assert pending - {id} + {id} == pending;
    }
  }

  lemma NobodyMoved(env: Env, m: Manager, clock: Clock)
    requires Inv(env, m)
    ensures Fair(env, m, m, {}, clock)
  {
    Holders(env, m);
    hide Inv, TriedSlot;
  }

  lemma RecentStays(env: Env, m: Manager, pending: set<nat>, clock: Clock, slot: Slot)
    requires Inv(env, m) && Positive(clock, pending) && slot in m.triedTable && m.triedTable[slot] in m.mapInfo
    requires clock.start - m.mapInfo[m.triedTable[slot]].nLastSuccess < FOUR_HOURS
    ensures slot in Resolve(env, m, pending, clock).triedTable
    ensures Resolve(env, m, pending, clock).triedTable[slot] == m.triedTable[slot]
  {
    hide Inv, TriedSlot, Resolve;
    ResolveIsFair(env, m, pending, clock);
  }

  /** A newcomer whose slot is held by an entry that neither succeeded lately nor failed its test yet. */
  ghost predicate Waiting(env: Env, m: Manager, id: nat, clock: Clock) {
    && id in m.mapInfo && env.valid(m.mapInfo[id].service.ip)
    && var slot := TriedSlot(env, m.nKey, m.mapInfo[id].service);
    && slot in m.triedTable && m.triedTable[slot] in m.mapInfo
    && var rival := m.mapInfo[m.triedTable[slot]];
    && clock.start - rival.nLastSuccess >= FOUR_HOURS && !FailedTest(rival, clock.start, clock.check(id))
  }

  /** Each tried slot has its holder still, with the same times, or one that succeeded since the start. */
  predicate HeldOrNew(m: Manager, m': Manager, start: int) {
    forall slot :: slot in m'.triedTable && m'.triedTable[slot] in m'.mapInfo ==>
      var holder := m'.triedTable[slot];
      || m'.mapInfo[holder].nLastSuccess >= start
      || (&& slot in m.triedTable && m.triedTable[slot] == holder && holder in m.mapInfo
          && m'.mapInfo[holder].nLastSuccess == m.mapInfo[holder].nLastSuccess
          && m'.mapInfo[holder].nLastTry == m.mapInfo[holder].nLastTry)
  }

  lemma OneHeld(env: Env, m: Manager, id: nat, clock: Clock, m2: Manager)
    requires Inv(env, m) && clock.start > 0 && clock.good(id) >= clock.start
    requires m2 == Settle(ResolveOne(env, m, id, clock).0, id, ResolveOne(env, m, id, clock).1)
    ensures HeldOrNew(m, m2, clock.start) && m2.nKey == m.nKey && m2.mapInfo.Keys <= m.mapInfo.Keys
    ensures forall j :: j in m2.mapInfo ==> m2.mapInfo[j].service == m.mapInfo[j].service
    ensures id in m2.collisions ==> Waiting(env, m, id, clock)
  {
    hide Inv, ResolveOne, TriedSlot;
    ResolveEffect(env, m, id, clock);
    Holders(env, m);
  }

  lemma WaitingBefore(env: Env, m: Manager, m2: Manager, id: nat, clock: Clock)
    requires HeldOrNew(m, m2, clock.start) && m2.nKey == m.nKey && m2.mapInfo.Keys <= m.mapInfo.Keys
    requires forall j :: j in m2.mapInfo ==> m2.mapInfo[j].service == m.mapInfo[j].service
    requires Waiting(env, m2, id, clock)
    ensures Waiting(env, m, id, clock)
  {
    hide TriedSlot;
  }

  /** Over a whole call, if the clock does not go back: only newcomers that had to wait to begin with are still
      pending.  All others were given their slot or dropped. */
  lemma {:induction false} ResolveSettles(env: Env, m: Manager, pending: set<nat>, clock: Clock, id: nat)
    requires Inv(env, m) && Positive(clock, pending) && forall j :: j in pending ==> clock.good(j) >= clock.start
    requires id in pending && id in Resolve(env, m, pending, clock).collisions
    ensures Waiting(env, m, id, clock)
    decreases pending
  {
    hide Inv, ResolveOne, Waiting, HeldOrNew;
    var least := Least(pending);
    var (m1, settled) := ResolveOne(env, m, least, clock);
    ResolveOneKeeps(env, m, least, clock, m1, settled);
    var m2 := Settle(m1, least, settled);
    OneHeld(env, m, least, clock, m2);
    if id != least {
      ResolveSettles(env, m2, pending - {least}, clock, id);
      WaitingBefore(env, m, m2, id, clock);
    }
  }

  // ---------------------------------------------------------------- Attempt, Connected, SetServices

  /** Only the record of entry `id` changes. */
  ghost predicate Edits(m: Manager, id: int, info: Info, m': Manager)
    requires id in m.mapInfo
  {
    m' == m.(mapInfo := m'.mapInfo) && m'.mapInfo == m.mapInfo[id := info]
  }

  /** An attempt is noted, and counted exactly if it should be and none was counted since the last success with
      anyone. */
  lemma AttemptEffect(m: Manager, s: Service, countFailure: bool, time: int)
    ensures !Known(m, s) ==> Attempt(m, s, countFailure, time) == m
    ensures Known(m, s) ==>
      var id := m.mapAddr[s.ip];
      var info, m' := m.mapInfo[id], Attempt(m, s, countFailure, time);
      && m'.mapInfo.Keys == m.mapInfo.Keys && Edits(m, id, m'.mapInfo[id], m') && m'.mapInfo[id].nLastTry == time
      && if countFailure && info.nLastCountAttempt < m.nLastGood
         then m'.mapInfo[id] == info.(nLastTry := time, nLastCountAttempt := time, nAttempts := info.nAttempts + 1)
         else m'.mapInfo[id] == info.(nLastTry := time)
  {
  }

  /** However many attempts fail between two successes, only one of them counts. */
  lemma {:induction false} AttemptsCountOnce(m: Manager, s: Service, times: seq<int>)
    requires Known(m, s) && forall i :: 0 <= i < |times| ==> times[i] >= m.nLastGood
    ensures var m', id := Attempts(m, s, times), m.mapAddr[s.ip];
      && Known(m', s) && m'.mapAddr == m.mapAddr && m'.nLastGood == m.nLastGood
      && m'.mapInfo[id].nAttempts == m.mapInfo[id].nAttempts +
           (if times != [] && m.mapInfo[id].nLastCountAttempt < m.nLastGood then 1 else 0)
      && (times != [] ==> m'.mapInfo[id].nLastCountAttempt >= m.nLastGood)
      && (times == [] ==> m' == m)
  {
    if times != [] {
      var n := |times| - 1;
      AttemptsCountOnce(m, s, times[..n]);
      AttemptEffect(Attempts(m, s, times[..n]), s, true, times[n]);
    }
  }

  function Attempts(m: Manager, s: Service, times: seq<int>): Manager {
    if times == [] then m else Attempt(Attempts(m, s, times[..|times| - 1]), s, true, times[|times| - 1])
  }

  /** A connection moves the time an address was seen forward, at most every twenty minutes. */
  lemma ConnectedEffect(m: Manager, s: Service, time: int)
    ensures var m' := Connected(m, s, time);
      if Known(m, s) && time > m.mapInfo[m.mapAddr[s.ip]].nTime + 1200
      then Edits(m, m.mapAddr[s.ip], m.mapInfo[m.mapAddr[s.ip]].(nTime := time % 0x1_0000_0000), m')
      else m' == m
  {
  }

  lemma SetServicesEffect(m: Manager, s: Service, flags: set<nat>)
    ensures var m' := SetServices(m, s, flags);
      if Known(m, s) then Edits(m, m.mapAddr[s.ip], m.mapInfo[m.mapAddr[s.ip]].(flags := flags), m') else m' == m
  {
  }
}
