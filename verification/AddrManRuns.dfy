/** Whole runs of the address manager: from an empty manager, whatever calls follow, the indexes
    and counters stay consistent, tried slots stay filled and pending collisions stay resolvable. */
module AddrManRuns {
  import opened AddrManModel
  import opened AddrManOps
  import opened AddrManCalls

  // ---------------------------------------------------------------- GetAddr

  predicate InRange(m: Manager, swaps: seq<(int, int)>) {
    forall k :: 0 <= k < |swaps| ==>
      0 <= swaps[k].0 < |m.vRandom| && 0 <= swaps[k].1 < |m.vRandom|
  }

  /** The swaps GetAddr makes while it draws entries. */
  ghost function Shuffle(env: Env, m: Manager, swaps: seq<(int, int)>): (m': Manager)
    requires Inv(env, m) && InRange(m, swaps)
    ensures Inv(env, m') && Relocated(m, m') && |m'.vRandom| == |m.vRandom|
  {
    if swaps == [] then
      m
    else
      var m1 := Shuffle(env, m, swaps[..|swaps| - 1]);
      var (i, j) := swaps[|swaps| - 1];
      SwapStays(env, m, m1, i, j);
      SwapRandom(m1, i, j)
  }

  lemma SwapStays(env: Env, m: Manager, m1: Manager, i: int, j: int)
    requires Inv(env, m1) && Relocated(m, m1)
    requires 0 <= i < |m1.vRandom| && 0 <= j < |m1.vRandom|
    ensures m1.vRandom[i] in m1.mapInfo && m1.vRandom[j] in m1.mapInfo
    ensures Inv(env, SwapRandom(m1, i, j)) && Relocated(m, SwapRandom(m1, i, j))
  {
    hide Core, Relocated, TriedIds, SwapRandom;
    Listed(env, m1, i);
    Listed(env, m1, j);
    SwapRandomKeeps(env, m1, i, j, {});
    RelocatedCounts(m1, SwapRandom(m1, i, j));
    RelocatedTransitive(m, m1, SwapRandom(m1, i, j));
  }

  lemma Listed(env: Env, m: Manager, i: int)
    requires Inv(env, m) && 0 <= i < |m.vRandom|
    ensures m.vRandom[i] in m.mapInfo
  {
    hide TriedPlaced, NewPlaced, Referenced, Indexed, Anchored, Timed, TriedDrift, NewDrift;
  }

  lemma RelocatedTransitive(m: Manager, m1: Manager, m2: Manager)
    requires Relocated(m, m1) && Relocated(m1, m2)
    ensures Relocated(m, m2)
  {
  }

  lemma RelocatedEvolves(env: Env, m: Manager, m': Manager)
    requires Relocated(m, m')
    ensures Evolves(m, m') && m'.collisions == m.collisions
  {
  }

  // ---------------------------------------------------------------- ResolveCollisions

  /** The readings of the clock one ResolveCollisions call makes: one at the start, and for each
      id one before and one after deciding to swap. */
  datatype Clock = Clock(start: int, check: nat -> int, good: nat -> int)

  predicate Positive(clock: Clock, ids: set<nat>) {
    clock.start > 0 && forall id :: id in ids ==> clock.good(id) > 0
  }

  /** What becomes of one pending collision, and whether it is settled. */
  ghost function ResolveOne(env: Env, m: Manager, id: nat, clock: Clock): (Manager, bool)
    requires Inv(env, m) && clock.start > 0 && clock.good(id) > 0
  {
    if id !in m.mapInfo then (m, true)
    else
      var service := m.mapInfo[id].service;
      var s := TriedSlot(env, m.nKey, service);
      if !env.valid(service.ip) then (m, true)
      else if s !in m.triedTable then (Good(env, m, service, false, clock.start), true)
      else
        assert m.triedTable[s] in m.mapInfo;
        var rival := m.mapInfo[m.triedTable[s]];
        if clock.start - rival.nLastSuccess < REPLACEMENT_SECONDS then (m, true)
        else if clock.start - rival.nLastTry < REPLACEMENT_SECONDS
                && clock.check(id) - rival.nLastTry > 60
        then (Good(env, m, service, false, clock.good(id)), true)
        else (m, false)
  }

  function Settle(m: Manager, id: nat, settled: bool): Manager {
    if settled then m.(collisions := m.collisions - {id}) else m
  }

  lemma ResolveOneKeeps(env: Env, m: Manager, id: nat, clock: Clock, m1: Manager, settled: bool)
    requires Inv(env, m) && clock.start > 0 && clock.good(id) > 0
    requires (m1, settled) == ResolveOne(env, m, id, clock)
    ensures m1.collisions == m.collisions
    ensures Inv(env, Settle(m1, id, settled)) && Evolves(m, Settle(m1, id, settled))
  {
    hide Inv, Good, TriedSlot;
    if id in m.mapInfo {
      var service := m.mapInfo[id].service;
      GoodKeeps(env, m, service, false, clock.start);
      GoodKeeps(env, m, service, false, clock.good(id));
    }
    CollisionsIrrelevant(env, m1, m1.collisions - {id});
  }

  /** Settle the collisions of `pending`, least id first. */
  ghost function Resolve(env: Env, m: Manager, pending: set<nat>, clock: Clock): (m': Manager)
    requires Inv(env, m) && Positive(clock, pending)
    ensures Inv(env, m') && Evolves(m, m') && m'.collisions <= m.collisions
    decreases pending
  {
    if pending == {} then m
    else
      var id := Least(pending);
      var (m1, settled) := ResolveOne(env, m, id, clock);
      ResolveOneKeeps(env, m, id, clock, m1, settled);
      var m2 := Settle(m1, id, settled);
      var m3 := Resolve(env, m2, pending - {id}, clock);
      EvolvesTransitive(m, m2, m3);
      m3
  }

  // ---------------------------------------------------------------- SelectTriedCollision

  datatype Selection = Nothing | LookedUp(id: int)

  /** Pick a pending collision: forget it if its entry is gone, otherwise look up the id its
      tried slot holds, which is -1 for an empty slot. */
  function Select(env: Env, m: Manager, choice: nat): (Manager, Selection) {
    if choice !in m.collisions then (m, Nothing)
    else if choice !in m.mapInfo then (m.(collisions := m.collisions - {choice}), Nothing)
    else
      var s := TriedSlot(env, m.nKey, m.mapInfo[choice].service);
      (m, LookedUp(if s in m.triedTable then m.triedTable[s] else -1))
  }

  /** The tried slot of a pending entry is held, by an entry that belongs there. */
  lemma PendingHeld(env: Env, m: Manager, id: nat)
    requires Inv(env, m) && Pending(env, m) && id in m.collisions && id in m.mapInfo
    ensures var slot := TriedSlot(env, m.nKey, m.mapInfo[id].service);
      && slot in m.triedTable && m.triedTable[slot] in m.mapInfo && m.mapInfo[m.triedTable[slot]].fInTried
      && slot == TriedSlot(env, m.nKey, m.mapInfo[m.triedTable[slot]].service)
  {
    hide TriedSlot, Indexed, Shuffled, NewPlaced, Referenced, Anchored, Timed, TriedDrift, NewDrift;
  }

  /** The id looked up is always that of a tried entry, the one in the slot that the pending entry wants; only a
      collision whose entry is gone is forgotten. */
  lemma SelectFinds(env: Env, m: Manager, choice: nat)
    requires Inv(env, m) && Pending(env, m)
    ensures var r := Select(env, m, choice).1;
            r.LookedUp? ==> r.id in m.mapInfo && m.mapInfo[r.id].fInTried
    ensures Select(env, m, choice).1.LookedUp? <==> choice in m.collisions && choice in m.mapInfo
    ensures choice in m.collisions && choice in m.mapInfo ==>
      var wanted, id := TriedSlot(env, m.nKey, m.mapInfo[choice].service), Select(env, m, choice).1.id;
      wanted in m.triedTable && m.triedTable[wanted] == id && wanted == TriedSlot(env, m.nKey, m.mapInfo[id].service)
    ensures Select(env, m, choice).0.collisions ==
      if choice in m.mapInfo then m.collisions else m.collisions - {choice}
    ensures Inv(env, Select(env, m, choice).0) && Evolves(m, Select(env, m, choice).0)
    ensures Select(env, m, choice).0.collisions <= m.collisions
  {
    hide Inv, Pending, TriedSlot;
    CollisionsIrrelevant(env, m, m.collisions - {choice});
    if choice in m.collisions && choice in m.mapInfo { PendingHeld(env, m, choice); }
  }

  // ---------------------------------------------------------------- runs

  datatype Call =
    | CallAdd(a: Address, src: NetAddr, penalty: int, now: int, later: int, draw: nat)
    | CallGood(s: Service, testFirst: bool, time: int)
    | CallAttempt(s: Service, countFailure: bool, time: int)
    | CallConnected(s: Service, time: int)
    | CallSetServices(s: Service, flags: set<nat>)
    | CallGetAddr(swaps: seq<(int, int)>)
    | CallResolve(clock: Clock)
    | CallSelect(choice: nat)

  /** Calls made at positive times. */
  ghost predicate Timely(call: Call) {
    match call
    case CallGood(_, _, time) => time > 0
    case CallAttempt(_, _, time) => time > 0
    case CallResolve(clock) => clock.start > 0 && forall id :: clock.good(id) > 0
    case _ => true
  }

  ghost function Apply(env: Env, m: Manager, call: Call): Manager
    requires Inv(env, m) && Timely(call)
  {
    match call
    case CallAdd(a, src, penalty, now, later, draw) =>
      Add(env, m, a, src, penalty, now, later, draw).0
    case CallGood(s, testFirst, time) => Good(env, m, s, testFirst, time)
    case CallAttempt(s, countFailure, time) => Attempt(m, s, countFailure, time)
    case CallConnected(s, time) => Connected(m, s, time)
    case CallSetServices(s, flags) => SetServices(m, s, flags)
    case CallGetAddr(swaps) => if InRange(m, swaps) then Shuffle(env, m, swaps) else m
    case CallResolve(clock) => Resolve(env, m, m.collisions, clock)
    case CallSelect(choice) => Select(env, m, choice).0
  }

  lemma ApplyKeeps(env: Env, m: Manager, call: Call)
    requires Inv(env, m) && Pending(env, m) && Timely(call)
    ensures Inv(env, Apply(env, m, call)) && Evolves(m, Apply(env, m, call))
    ensures Pending(env, Apply(env, m, call))
  {
    hide Inv, Evolves, Pending, Add, Good, Attempt, Connected, SetServices, Select, Resolve;
    var m' := Apply(env, m, call);
    match call {
      case CallAdd(a, src, penalty, now, later, draw) =>
        AddKeeps(env, m, a, src, penalty, now, later, draw);
      case CallGood(s, testFirst, time) =>
        GoodKeeps(env, m, s, testFirst, time);
        GoodPending(env, m, s, testFirst, time);
      case CallAttempt(s, countFailure, time) =>
        AttemptKeeps(env, m, s, countFailure, time);
      case CallConnected(s, time) =>
        ConnectedKeeps(env, m, s, time);
      case CallSetServices(s, flags) =>
        SetServicesKeeps(env, m, s, flags);
      case CallGetAddr(swaps) =>
        RelocatedEvolves(env, m, m');
      case CallResolve(clock) =>
      case CallSelect(choice) =>
        SelectFinds(env, m, choice);
    }
    if !call.CallGood? {
      QuietCalls(env, m, call);
      PendingPersists(env, m, m');
    }
  }

  /** Only Good adds pending collisions. */
  lemma QuietCalls(env: Env, m: Manager, call: Call)
    requires Inv(env, m) && Pending(env, m) && Timely(call) && !call.CallGood?
    ensures Apply(env, m, call).collisions <= m.collisions
  {
    hide Core, TriedDrift, NewDrift, Add, Good, Resolve;
    match call {
      case CallAdd(a, src, penalty, now, later, draw) =>
        AddKeeps(env, m, a, src, penalty, now, later, draw);
      case _ =>
    }
  }

  ghost function Run(env: Env, m: Manager, calls: seq<Call>): (m': Manager)
    requires Inv(env, m) && Pending(env, m) && forall k :: 0 <= k < |calls| ==> Timely(calls[k])
    ensures Inv(env, m') && Pending(env, m')
  {
    if calls == [] then m
    else
      var m1 := Run(env, m, calls[..|calls| - 1]);
      ApplyKeeps(env, m1, calls[|calls| - 1]);
      Apply(env, m1, calls[|calls| - 1])
  }

  /** Later states of a run evolve from earlier ones. */
  lemma {:induction false} RunEvolves(env: Env, m: Manager, calls: seq<Call>, k: nat)
    requires Inv(env, m) && Pending(env, m) && k <= |calls|
    requires forall i :: 0 <= i < |calls| ==> Timely(calls[i])
    ensures Evolves(Run(env, m, calls[..k]), Run(env, m, calls))
  {
    hide Inv, Pending, Apply;
    var n := |calls|;
    if k == n {
      assert calls[..k] == calls;
    } else {
      var front := calls[..n - 1];
      RunEvolves(env, m, front, k);
      assert front[..k] == calls[..k];
      ApplyKeeps(env, Run(env, m, front), calls[n - 1]);
      EvolvesTransitive(Run(env, m, calls[..k]), Run(env, m, front), Run(env, m, calls));
    }
  }

  lemma EmptyInv(env: Env, key: nat, collisions: set<nat>)
    ensures Inv(env, Empty(key, collisions))
    ensures Pending(env, Empty(key, collisions)) <==> collisions == {}
  {
    var m := Empty(key, collisions);
    assert TriedIds(m.mapInfo) == {};
    if collisions != {} {
      var id :| id in collisions;
    }
  }

  /** From an empty manager every run is consistent; every tried slot filled at some point is
      filled at every later point; and every selection finds a tried entry. */
  lemma RunsAreConsistent(env: Env, key: nat, calls: seq<Call>, k: nat, choice: nat)
    requires k <= |calls| && forall i :: 0 <= i < |calls| ==> Timely(calls[i])
    ensures Inv(env, Empty(key, {})) && Pending(env, Empty(key, {}))
    ensures var early := Run(env, Empty(key, {}), calls[..k]);
            var late := Run(env, Empty(key, {}), calls);
            && Inv(env, late)
            && early.triedTable.Keys <= late.triedTable.Keys
            && (Select(env, late, choice).1.LookedUp? ==>
                  Select(env, late, choice).1.id in late.mapInfo)
  {
    EmptyInv(env, key, {});
    hide Inv, Pending, Select;
    RunEvolves(env, Empty(key, {}), calls, k);
    SelectFinds(env, Run(env, Empty(key, {}), calls), choice);
  }

  // ---------------------------------------------------------------- what Clear forgets

  /** A new address whose slot is free. */
  lemma AddFresh(env: Env, m: Manager, a: Address, src: NetAddr, now: int)
    requires Inv(env, m) && env.routable(a.service.ip) && a.service.ip !in m.mapAddr
    requires NewSlot(env, m.nKey, a.service, NewBucket(env, m.nKey, a.service, src)) !in m.newTable
    ensures var m' := Add(env, m, a, src, 0, now, now, 0).0;
      && m'.nIdCount == m.nIdCount + 1 && m'.nKey == m.nKey && m'.mapAddr == m.mapAddr[a.service.ip := m.nIdCount]
      && m'.triedTable == m.triedTable && m'.collisions == m.collisions
      && m'.newTable ==
        m.newTable[NewSlot(env, m.nKey, a.service, NewBucket(env, m.nKey, a.service, src)) := m.nIdCount]
      && m'.mapInfo.Keys == m.mapInfo.Keys + {m.nIdCount} && m'.mapInfo[m.nIdCount].service == a.service
      && !m'.mapInfo[m.nIdCount].fInTried
      && forall id :: id in m.mapInfo && id != m.nIdCount ==> m'.mapInfo[id] == m.mapInfo[id]
  {
    hide Core, TriedDrift, NewDrift, Placeable;
    FreshId(env, m, a.service.ip);
    WithEntryPlaceable(env, m, a, src, 0);
    var m1 := WithEntry(m, a, src, 0);
    var s := NewSlot(env, m.nKey, a.service, NewBucket(env, m.nKey, a.service, src));
    PlaceableOccupant(env, m1, m.nIdCount, {m.nIdCount}, s);
    assert s !in m1.newTable && ClearNew(m1, s) == m1;
  }

  lemma FreshId(env: Env, m: Manager, ip: NetAddr)
    requires Inv(env, m) && ip !in m.mapAddr
    ensures m.nIdCount !in m.mapInfo && !(ip in m.mapAddr && m.mapAddr[ip] in m.mapInfo)
  {
  }

  /** The first endpoint of a tried slot takes it. */
  lemma GoodTakes(env: Env, m: Manager, s: Service, time: int)
    requires Inv(env, m) && time > 0 && Known(m, s) && !m.mapInfo[m.mapAddr[s.ip]].fInTried
    requires TriedSlot(env, m.nKey, s) !in m.triedTable
    ensures var m' := Good(env, m, s, true, time);
      && m'.nKey == m.nKey && m'.mapAddr == m.mapAddr && m'.collisions == m.collisions
      && m'.mapInfo.Keys == m.mapInfo.Keys
      && m'.triedTable == m.triedTable[TriedSlot(env, m.nKey, s) := m.mapAddr[s.ip]]
      && forall id :: id in m.mapInfo && id != m.mapAddr[s.ip] ==> m'.mapInfo[id] == m.mapInfo[id]
  {
    hide Core, TriedDrift, NewDrift, TriedSlot;
    var id := m.mapAddr[s.ip];
    TouchStays(env, m, id, Praised(m.mapInfo[id], time));
    LastGoodIrrelevant(env, Touch(m, id, Praised(m.mapInfo[id], time)), time);
    var m1 := Touch(m.(nLastGood := time), id, Praised(m.mapInfo[id], time));
    WhereIs(env, m1, id);
    WithdrawForTried(env, m1, id);
  }

  /** Another endpoint of a tried slot waits. */
  lemma GoodWaits(env: Env, m: Manager, s: Service, time: int)
    requires Inv(env, m) && time > 0 && Known(m, s) && !m.mapInfo[m.mapAddr[s.ip]].fInTried && m.mapAddr[s.ip] >= 0
    requires TriedSlot(env, m.nKey, s) in m.triedTable && |m.collisions| < TRIED_COLLISION_SIZE
    ensures Good(env, m, s, true, time).collisions == m.collisions + {m.mapAddr[s.ip]}
  {
    hide Core, TriedDrift, NewDrift, TriedSlot;
    var id := m.mapAddr[s.ip];
    TouchStays(env, m, id, Praised(m.mapInfo[id], time));
    LastGoodIrrelevant(env, Touch(m, id, Praised(m.mapInfo[id], time)), time);
    WhereIs(env, Touch(m.(nLastGood := time), id, Praised(m.mapInfo[id], time)), id);
  }

  /** Two endpoints of one tried slot, each with a new slot of its own. */
  predicate Rivals(env: Env, key: nat, a: Address, b: Address, src: NetAddr) {
    && env.routable(a.service.ip) && env.routable(b.service.ip) && a.service.ip != b.service.ip
    && TriedSlot(env, key, a.service) == TriedSlot(env, key, b.service)
    && NewSlot(env, key, a.service, NewBucket(env, key, a.service, src))
       != NewSlot(env, key, b.service, NewBucket(env, key, b.service, src))
  }

  function RivalCalls(a: Address, b: Address, src: NetAddr, now: int): seq<Call> {
    [CallAdd(a, src, 0, now, now, 0), CallAdd(b, src, 0, now, now, 0), CallGood(b.service, true, now),
     CallGood(a.service, true, now)]
  }

  /** Both are known, each under its own id, and nothing is tried yet. */
  predicate Announced(env: Env, m: Manager, key: nat, a: Address, b: Address) {
    && m.nKey == key && Known(m, a.service) && Known(m, b.service) && m.mapAddr[a.service.ip] == 0
    && m.mapAddr[b.service.ip] == 1 && !m.mapInfo[0].fInTried && !m.mapInfo[1].fInTried
    && m.triedTable == map[] && m.collisions == {}
  }

  lemma RivalsAnnounced(env: Env, key: nat, a: Address, b: Address, src: NetAddr, now: int)
    requires Rivals(env, key, a, b, src) && Inv(env, Empty(key, {}))
    ensures var m := Add(env, Empty(key, {}), a, src, 0, now, now, 0).0;
      Inv(env, m) && Announced(env, Add(env, m, b, src, 0, now, now, 0).0, key, a, b)
  {
    hide Inv, Add, TriedSlot, NewSlot, NewBucket;
    var m0 := Empty(key, {});
    AddFresh(env, m0, a, src, now);
    AddKeeps(env, m0, a, src, 0, now, now, 0);
    AddFresh(env, Add(env, m0, a, src, 0, now, now, 0).0, b, src, now);
  }

  lemma RivalWaits(env: Env, m: Manager, key: nat, a: Address, b: Address, src: NetAddr, now: int)
    requires Inv(env, m) && now > 0 && Rivals(env, key, a, b, src) && Announced(env, m, key, a, b)
    ensures var m' := Good(env, m, b.service, true, now);
      Inv(env, m') && Good(env, m', a.service, true, now).collisions == {0}
  {
    hide Inv, Good, TriedSlot, NewSlot, NewBucket;
    GoodTakes(env, m, b.service, now);
    GoodKeeps(env, m, b.service, true, now);
    GoodWaits(env, Good(env, m, b.service, true, now), a.service, now);
    assert {} + {0} == {0};
  }

  /** Two addresses are announced and the tried slot goes to the second: the first, with id 0, is
      pending. */
  lemma RivalPends(env: Env, key: nat, a: Address, b: Address, src: NetAddr, now: int)
    requires now > 0 && Rivals(env, key, a, b, src)
    ensures Inv(env, Empty(key, {})) && Pending(env, Empty(key, {}))
    ensures Run(env, Empty(key, {}), RivalCalls(a, b, src, now)).collisions == {0}
  {
    EmptyInv(env, key, {});
    hide Inv, Pending, Add, Good, Rivals, Announced, Run;
    var m0, calls := Empty(key, {}), RivalCalls(a, b, src, now);
    NothingRun(env, m0, calls);
    RivalsAnnounced(env, key, a, b, src, now);
    RunNext(env, m0, calls, 0);
    RunNext(env, m0, calls, 1);
    RivalWaits(env, Run(env, m0, calls[..2]), key, a, b, src, now);
    RunNext(env, m0, calls, 2);
    RunNext(env, m0, calls, 3);
    assert calls[..4] == calls;
  }

  lemma NothingRun(env: Env, m: Manager, calls: seq<Call>)
    requires Inv(env, m) && Pending(env, m) && forall k :: 0 <= k < |calls| ==> Timely(calls[k])
    ensures Run(env, m, calls[..0]) == m
  {
    hide Inv, Pending, Apply, Timely;
  }

  lemma RunNext(env: Env, m: Manager, calls: seq<Call>, k: nat)
    requires Inv(env, m) && Pending(env, m) && k < |calls| && forall i :: 0 <= i < |calls| ==> Timely(calls[i])
    ensures Run(env, m, calls[..k + 1]) == Apply(env, Run(env, m, calls[..k]), calls[k])
  {
    hide Inv, Pending, Apply, Timely;
    assert calls[..k + 1][..k] == calls[..k];
  }

  /** What the selection relies on: it misses exactly if the id chosen is pending and known while its tried
      slot is empty. */
  lemma SelectMisses(env: Env, m: Manager, choice: nat)
    requires Inv(env, m)
    ensures Select(env, m, choice).1 == LookedUp(-1) <==>
      && choice in m.collisions && choice in m.mapInfo
      && TriedSlot(env, m.nKey, m.mapInfo[choice].service) !in m.triedTable
  {
    hide TriedSlot, Shuffled, NewPlaced, Referenced, Anchored, Timed, TriedDrift, NewDrift;
  }

  /** Clear keeps the pending collisions of the ids it forgets, so only without any is what the selection
      relies on true afterwards. */
  lemma ClearedPending(env: Env, key: nat, collisions: set<nat>)
    ensures Pending(env, Empty(key, collisions)) <==> collisions == {}
  {
    if collisions != {} {
      var id :| id in collisions;
      assert !(id < Empty(key, collisions).nIdCount);
    }
  }

  ghost function AddAll(env: Env, m: Manager, adds: seq<Call>): (m': Manager)
    requires Inv(env, m) && forall k :: 0 <= k < |adds| ==> adds[k].CallAdd?
    ensures Inv(env, m') && m'.triedTable == m.triedTable && m'.collisions == m.collisions
  {
    if adds == [] then m
    else
      var n := |adds| - 1;
      var m1 := AddAll(env, m, adds[..n]);
      var c := adds[n];
      AddKeeps(env, m1, c.a, c.src, c.penalty, c.now, c.later, c.draw);
      Add(env, m1, c.a, c.src, c.penalty, c.now, c.later, c.draw).0
  }

  /** After Clear, with any ids pending and whatever addresses are then added: the selection looks up the id
      -1 exactly if it draws a pending id that has been given out again. */
  lemma ClearStrandsCollisions(env: Env, key: nat, collisions: set<nat>, adds: seq<Call>, choice: nat)
    requires forall k :: 0 <= k < |adds| ==> adds[k].CallAdd?
    ensures Inv(env, Empty(key, collisions))
    ensures var m := AddAll(env, Empty(key, collisions), adds);
            Select(env, m, choice).1 == LookedUp(-1) <==> choice in collisions && choice in m.mapInfo
  {
    EmptyInv(env, key, collisions);
    hide Inv;
    SelectMisses(env, AddAll(env, Empty(key, collisions), adds), choice);
  }

  /** It happens: the first address added after Clear gets id 0 again; if 0 was pending, as after the run
      above, its tried slot is empty. */
  lemma ClearStrandsFirst(env: Env, key: nat, a: Address, src: NetAddr, now: int)
    requires env.routable(a.service.ip)
    ensures Inv(env, Empty(key, {0}))
    ensures var m := Add(env, Empty(key, {0}), a, src, 0, now, now, 0).0;
            Select(env, m, 0).1 == LookedUp(-1)
  {
    EmptyInv(env, key, {0});
    var m0 := Empty(key, {0});
    WithEntryPlaceable(env, m0, a, src, 0);
    var m1 := WithEntry(m0, a, src, 0);
    var s := NewSlot(env, key, a.service, NewBucket(env, key, a.service, src));
    assert s !in m1.newTable;
    assert ClearNew(m1, s) == m1;
  }
}
