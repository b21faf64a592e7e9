/** The calls the address manager offers, as functions of its state, and what every one keeps. */
module AddrManCalls {
  import opened Arithmetic
  import opened AddrManModel
  import opened AddrManOps

  // ---------------------------------------------------------------- history

  /** What no call may undo: ids are never rebound to another endpoint or reused, and a tried
      slot once filled stays filled. */
  predicate Evolves(m: Manager, m': Manager) {
    && m'.nKey == m.nKey && m.nIdCount <= m'.nIdCount
    && m.triedTable.Keys <= m'.triedTable.Keys
    && (forall id :: id in m'.mapInfo && id < m.nIdCount ==>
          id in m.mapInfo && m'.mapInfo[id].service == m.mapInfo[id].service)
  }

  lemma EvolvesTransitive(m: Manager, m1: Manager, m2: Manager)
    requires Evolves(m, m1) && Evolves(m1, m2)
    ensures Evolves(m, m2)
  {
  }

  /** Every pending collision whose entry is still known points at an occupied tried slot. */
  predicate Pending(env: Env, m: Manager) {
    && |m.collisions| <= TRIED_COLLISION_SIZE
    && forall id :: id in m.collisions ==>
         && id < m.nIdCount
         && (id in m.mapInfo ==> TriedSlot(env, m.nKey, m.mapInfo[id].service) in m.triedTable)
  }

  lemma PendingPersists(env: Env, m: Manager, m': Manager)
    requires Pending(env, m) && Evolves(m, m') && m'.collisions <= m.collisions
    ensures Pending(env, m')
  {
    SubsetCardinality(m'.collisions, m.collisions);
  }

  lemma SubsetCardinality(a: set<nat>, b: set<nat>)
    requires a <= b
    ensures |a| <= |b|
  {
    assert b == a + (b - a);
  }

  // ---------------------------------------------------------------- MakeTried

  lemma WithdrawForTried(env: Env, m: Manager, id: int)
    requires Core(env, m, {}) && id in m.mapInfo && !m.mapInfo[id].fInTried
    ensures var m1 := Withdraw(env, m, id);
            var s := TriedSlot(env, m.nKey, m.mapInfo[id].service);
            && Core(env, m1, {id}) && Bystanders(m, m1, {}) && m1.triedTable == m.triedTable
            && SameDrift(m, m1, 1)
            && id in m1.mapInfo && m1.mapInfo[id] == m.mapInfo[id].(nRefCount := 0)
            && Unreferenced(m1.mapInfo, {id})
            && (s in m1.triedTable ==> m1.triedTable[s] != id)
  {
    WithdrawKeeps(env, m, id, {});
    assert {} + {id} == {id};
  }

  /** Take `id` out of the new table and evict whatever holds its tried slot. */
  ghost function MakeRoom(env: Env, m: Manager, id: int): Manager
    requires Core(env, m, {}) && id in m.mapInfo && !m.mapInfo[id].fInTried
  {
    WithdrawForTried(env, m, id);
    var m1 := Withdraw(env, m, id);
    var s := TriedSlot(env, m.nKey, m.mapInfo[id].service);
    if s in m1.triedTable then Evict(env, m1, s, {id}) else m1
  }

  lemma MakeRoomKeeps(env: Env, m: Manager, id: int)
    requires Core(env, m, {}) && id in m.mapInfo && !m.mapInfo[id].fInTried
    ensures var m2 := MakeRoom(env, m, id);
            var s := TriedSlot(env, m.nKey, m.mapInfo[id].service);
            && Core(env, m2, {id}) && Bystanders(m, m2, {}) && SameDrift(m, m2, 1)
            && m2.triedTable == m.triedTable - {s}
            && id in m2.mapInfo && SameButPlace(m.mapInfo[id].(nRefCount := 0), m2.mapInfo[id])
  {
    hide Core, TriedDrift, NewDrift, TriedSlot, Withdraw, Evict, KeepsOthers;
    var s := TriedSlot(env, m.nKey, m.mapInfo[id].service);
    WithdrawForTried(env, m, id);
    var m1 := Withdraw(env, m, id);
    if s in m1.triedTable {
      EvictKeeps(env, m1, s, {id});
      assert SameButPlace(m1.mapInfo[id], Evict(env, m1, s, {id}).mapInfo[id]);
    } else {
      assert m.triedTable - {s} == m.triedTable;
    }
  }

  ghost function MakeTried(env: Env, m: Manager, id: int): Manager
    requires Core(env, m, {}) && id in m.mapInfo && !m.mapInfo[id].fInTried
  {
    MakeRoomKeeps(env, m, id);
    Promote(MakeRoom(env, m, id), TriedSlot(env, m.nKey, m.mapInfo[id].service), id)
  }

  lemma MakeTriedKeeps(env: Env, m: Manager, id: int)
    requires Core(env, m, {}) && id in m.mapInfo && !m.mapInfo[id].fInTried
    requires m.mapInfo[id].nLastSuccess > 0
    ensures var m' := MakeTried(env, m, id);
            var s := TriedSlot(env, m.nKey, m.mapInfo[id].service);
            && Core(env, m', {}) && SameDrift(m, m', 0) && Evolves(m, m')
            && m'.collisions == m.collisions && m'.nLastGood == m.nLastGood
            && m'.triedTable == m.triedTable[s := id]
            && id in m'.mapInfo && m'.mapInfo[id].fInTried
  {
    var s := TriedSlot(env, m.nKey, m.mapInfo[id].service);
    MakeRoomKeeps(env, m, id);
    var m2 := MakeRoom(env, m, id);
    hide Core, TriedDrift, NewDrift, TriedSlot, MakeRoom, Evolves;
    PromoteKeeps(env, m2, s, id, {id});
    assert {id} - {id} == {};
    PromoteEvolves(m, m2, s, id);
  }

  lemma PromoteEvolves(m: Manager, m2: Manager, s: Slot, id: int)
    requires Bystanders(m, m2, {}) && id in m2.mapInfo && m2.triedTable == m.triedTable - {s}
    ensures Evolves(m, Promote(m2, s, id))
    ensures Promote(m2, s, id).triedTable == m.triedTable[s := id]
  {
    assert m2.triedTable[s := id] == m.triedTable[s := id];
  }

  /** The entry displaced from tried is back in the new table, at its home slot, with exactly
      one reference. */
  lemma MakeTriedDisplaces(env: Env, m: Manager, id: int)
    requires Core(env, m, {}) && id in m.mapInfo && !m.mapInfo[id].fInTried
    requires TriedSlot(env, m.nKey, m.mapInfo[id].service) in m.triedTable
    ensures var m' := MakeTried(env, m, id);
            var displaced := m.triedTable[TriedSlot(env, m.nKey, m.mapInfo[id].service)];
            && displaced in m'.mapInfo && !m'.mapInfo[displaced].fInTried
            && m'.mapInfo[displaced].nRefCount == 1
            && HomeSlot(env, m.nKey, m.mapInfo[displaced]) in m'.newTable
            && m'.newTable[HomeSlot(env, m.nKey, m.mapInfo[displaced])] == displaced
  {
    var s := TriedSlot(env, m.nKey, m.mapInfo[id].service);
    WithdrawForTried(env, m, id);
    var m1 := Withdraw(env, m, id);
    DemoteAndClear(env, m1, s, {id});
    var displaced := m.triedTable[s];
    var m2 := ClearNew(Demote(m1, s), HomeSlot(env, m.nKey, m.mapInfo[displaced]));
    assert SameButPlace(Demote(m1, s).mapInfo[displaced], m2.mapInfo[displaced]);
    hide Core, TriedSlot, HomeSlot, ClearNew, Clearable;
  }

  // ---------------------------------------------------------------- finding an entry

  /** The id under which exactly this endpoint is known, if it is. */
  predicate Known(m: Manager, s: Service) {
    && s.ip in m.mapAddr && m.mapAddr[s.ip] in m.mapInfo
    && m.mapInfo[m.mapAddr[s.ip]].service == s
  }

  lemma TouchStays(env: Env, m: Manager, id: int, info: Info)
    requires Inv(env, m) && id in m.mapInfo && Touches(m.mapInfo[id], info)
    ensures Inv(env, Touch(m, id, info)) && Evolves(m, Touch(m, id, info))
  {
    hide Core, TriedDrift, NewDrift;
    TouchKeeps(env, m, id, info, {});
  }

  // ---------------------------------------------------------------- Attempt, Connected, SetServices

  function Attempt(m: Manager, s: Service, countFailure: bool, time: int): Manager {
    if !Known(m, s) then m
    else
      var id := m.mapAddr[s.ip];
      var info := m.mapInfo[id].(nLastTry := time);
      if countFailure && info.nLastCountAttempt < m.nLastGood
      then Touch(m, id, info.(nLastCountAttempt := time, nAttempts := info.nAttempts + 1))
      else Touch(m, id, info)
  }

  function Connected(m: Manager, s: Service, time: int): Manager {
    if !Known(m, s) then m
    else
      var id := m.mapAddr[s.ip];
      if time - m.mapInfo[id].nTime > 20 * 60
      then Touch(m, id, m.mapInfo[id].(nTime := time % UINT32))
      else m
  }

  function SetServices(m: Manager, s: Service, flags: set<nat>): Manager {
    if !Known(m, s) then m
    else Touch(m, m.mapAddr[s.ip], m.mapInfo[m.mapAddr[s.ip]].(flags := flags))
  }

  lemma TimesOf(env: Env, m: Manager, id: int)
    requires Inv(env, m) && id in m.mapInfo
    ensures m.mapInfo[id].nLastTry >= 0 && m.mapInfo[id].nLastSuccess >= 0
    ensures m.mapInfo[id].fInTried ==> m.mapInfo[id].nLastSuccess > 0
    ensures 0 <= id < m.nIdCount
  {
  }

  lemma AttemptKeeps(env: Env, m: Manager, s: Service, countFailure: bool, time: int)
    requires Inv(env, m) && time > 0
    ensures Inv(env, Attempt(m, s, countFailure, time))
    ensures Evolves(m, Attempt(m, s, countFailure, time))
  {
    if Known(m, s) {
      hide Core, TriedDrift, NewDrift;
      var id := m.mapAddr[s.ip];
      TimesOf(env, m, id);
      TouchStays(env, m, id, Attempt(m, s, countFailure, time).mapInfo[id]);
    }
  }

  lemma ConnectedKeeps(env: Env, m: Manager, s: Service, time: int)
    requires Inv(env, m)
    ensures Inv(env, Connected(m, s, time)) && Evolves(m, Connected(m, s, time))
  {
    if Connected(m, s, time) != m {
      hide Core, TriedDrift, NewDrift;
      var id := m.mapAddr[s.ip];
      TimesOf(env, m, id);
      TouchStays(env, m, id, Connected(m, s, time).mapInfo[id]);
    }
  }

  lemma SetServicesKeeps(env: Env, m: Manager, s: Service, flags: set<nat>)
    requires Inv(env, m)
    ensures Inv(env, SetServices(m, s, flags)) && Evolves(m, SetServices(m, s, flags))
  {
    if Known(m, s) {
      hide Core, TriedDrift, NewDrift;
      var id := m.mapAddr[s.ip];
      TimesOf(env, m, id);
      TouchStays(env, m, id, m.mapInfo[id].(flags := flags));
    }
  }

  // ---------------------------------------------------------------- Good

  function Praised(info: Info, time: int): Info {
    info.(nLastSuccess := time, nLastTry := time, nAttempts := 0)
  }

  /** Mark an endpoint as reachable.  An untried entry moves to tried, unless its slot is taken
      and evictions must be tested first: then it joins the pending collisions, if there is
      room.  (An entry found in none of its buckets would be left alone.) */
  ghost function Good(env: Env, m: Manager, s: Service, testFirst: bool, time: int): Manager
    requires Inv(env, m) && time > 0
  {
    var m0 := m.(nLastGood := time);
    if !Known(m, s) then m0
    else
      var id := m.mapAddr[s.ip];
      var m1 := Touch(m0, id, Praised(m.mapInfo[id], time));
      TouchStays(env, m, id, Praised(m.mapInfo[id], time));
      assert Inv(env, m1) by { LastGoodIrrelevant(env, Touch(m, id, Praised(m.mapInfo[id], time)), time); }
      if m.mapInfo[id].fInTried then m1
      else if OwnSlots(env, m1, id) == {} then m1
      else if testFirst && TriedSlot(env, m.nKey, s) in m.triedTable then
        if |m.collisions| < TRIED_COLLISION_SIZE
        then m1.(collisions := m.collisions + {id})
        else m1
      else MakeTried(env, m1, id)
  }

  lemma LastGoodIrrelevant(env: Env, m: Manager, time: int)
    requires Inv(env, m)
    ensures Inv(env, m.(nLastGood := time))
  {
  }

  lemma CollisionsIrrelevant(env: Env, m: Manager, collisions: set<nat>)
    requires Inv(env, m)
    ensures Inv(env, m.(collisions := collisions))
  {
  }

  lemma GoodKeeps(env: Env, m: Manager, s: Service, testFirst: bool, time: int)
    requires Inv(env, m) && time > 0
    ensures Inv(env, Good(env, m, s, testFirst, time))
    ensures Evolves(m, Good(env, m, s, testFirst, time))
    ensures !testFirst ==> Good(env, m, s, testFirst, time).collisions == m.collisions
  {
    hide Core, TriedDrift, NewDrift, MakeTried, OwnSlots, TriedSlot;
    var m' := Good(env, m, s, testFirst, time);
    LastGoodIrrelevant(env, m, time);
    if Known(m, s) {
      var id := m.mapAddr[s.ip];
      var praised := Praised(m.mapInfo[id], time);
      TimesOf(env, m, id);
      TouchStays(env, m, id, praised);
      LastGoodIrrelevant(env, Touch(m, id, praised), time);
      var m1 := Touch(m, id, praised).(nLastGood := time);
      if !m.mapInfo[id].fInTried && OwnSlots(env, m1, id) != {} {
        if testFirst && TriedSlot(env, m.nKey, s) in m.triedTable {
          CollisionsIrrelevant(env, m1, m.collisions + {id});
        } else {
          MakeTriedKeeps(env, m1, id);
          EvolvesTransitive(m, m1, m');
        }
      }
    }
  }

  lemma GoodPending(env: Env, m: Manager, s: Service, testFirst: bool, time: int)
    requires Inv(env, m) && time > 0 && Pending(env, m)
    ensures Pending(env, Good(env, m, s, testFirst, time))
  {
    GoodKeeps(env, m, s, testFirst, time);
    var m' := Good(env, m, s, testFirst, time);
    hide Inv, TriedSlot, Good, Pending;
    if m'.collisions == m.collisions {
      PendingPersists(env, m, m');
    } else {
      GoodJoins(env, m, s, testFirst, time);
      PendingPersists(env, m, m'.(collisions := m.collisions));
      PendingJoins(env, m', m.collisions, m.mapAddr[s.ip]);
    }
  }

  lemma PendingJoins(env: Env, m: Manager, others: set<nat>, id: nat)
    requires Pending(env, m.(collisions := others)) && m.collisions == others + {id}
    requires |others| < TRIED_COLLISION_SIZE && id < m.nIdCount
    requires id in m.mapInfo ==> TriedSlot(env, m.nKey, m.mapInfo[id].service) in m.triedTable
    ensures Pending(env, m)
  {
  }

  /** Good adds to the pending collisions only an entry whose tried slot another entry holds. */
  lemma GoodJoins(env: Env, m: Manager, s: Service, testFirst: bool, time: int)
    requires Inv(env, m) && time > 0
    requires Good(env, m, s, testFirst, time).collisions != m.collisions
    ensures var m' := Good(env, m, s, testFirst, time);
            && Known(m, s) && TriedSlot(env, m.nKey, s) in m'.triedTable
            && m'.collisions == m.collisions + {m.mapAddr[s.ip]}
            && |m.collisions| < TRIED_COLLISION_SIZE && m.mapAddr[s.ip] < m'.nIdCount
            && m.mapAddr[s.ip] in m'.mapInfo && m'.mapInfo[m.mapAddr[s.ip]].service == s
  {
    hide Core, TriedDrift, NewDrift, MakeTried, OwnSlots, TriedSlot;
    if Known(m, s) {
      var id := m.mapAddr[s.ip];
      var praised := Praised(m.mapInfo[id], time);
      TimesOf(env, m, id);
      TouchStays(env, m, id, praised);
      var m1 := Touch(m, id, praised).(nLastGood := time);
      LastGoodIrrelevant(env, Touch(m, id, praised), time);
      if !m.mapInfo[id].fInTried && !(testFirst && TriedSlot(env, m.nKey, s) in m.triedTable) {
        MakeTriedKeeps(env, m1, id);
      }
    }
  }

  /** What Good achieves: a known endpoint ends up holding its own tried slot, unless evictions
      are to be tested first and another entry holds that slot, which then keeps it. */
  lemma GoodEffect(env: Env, m: Manager, s: Service, testFirst: bool, time: int)
    requires Inv(env, m) && time > 0 && Known(m, s)
    ensures var m' := Good(env, m, s, testFirst, time);
            var id := m.mapAddr[s.ip];
            var slot := TriedSlot(env, m.nKey, s);
            && id in m'.mapInfo && m'.nLastGood == m'.mapInfo[id].nLastSuccess == time
            && slot in m'.triedTable
            && m'.triedTable == m.triedTable[slot :=
                 if testFirst && slot in m.triedTable then m.triedTable[slot] else id]
            && (m'.mapInfo[id].fInTried <==> m'.triedTable[slot] == id)
  {
    hide Core, TriedDrift, NewDrift, OwnSlots, TriedSlot, MakeTried;
    var id := m.mapAddr[s.ip];
    var slot := TriedSlot(env, m.nKey, s);
    var praised := Praised(m.mapInfo[id], time);
    TimesOf(env, m, id);
    TouchStays(env, m, id, praised);
    LastGoodIrrelevant(env, Touch(m, id, praised), time);
    WhereIs(env, m, id);
    var m1 := Touch(m, id, praised).(nLastGood := time);
    WhereIs(env, m1, id);
    if m.mapInfo[id].fInTried {
      assert m.triedTable[slot := id] == m.triedTable;
    } else if testFirst && slot in m.triedTable {
      assert m.triedTable[slot := m.triedTable[slot]] == m.triedTable;
    } else {
      MakeTriedPraises(env, m1, id);
    }
  }

  /** An entry holds its tried slot exactly when it is tried; otherwise it is in some new bucket. */
  lemma WhereIs(env: Env, m: Manager, id: int)
    requires Inv(env, m) && id in m.mapInfo
    ensures var slot := TriedSlot(env, m.nKey, m.mapInfo[id].service);
            m.mapInfo[id].fInTried <==> slot in m.triedTable && m.triedTable[slot] == id
    ensures !m.mapInfo[id].fInTried ==> OwnSlots(env, m, id) != {}
  {
    hide Indexed, Shuffled, TriedDrift, NewDrift, OwnSlots;
    AllSlotsOwn(env, m, id);
    RefOf(m.mapInfo, m.newTable, id);
  }

  lemma MakeTriedPraises(env: Env, m: Manager, id: int)
    requires Core(env, m, {}) && id in m.mapInfo && !m.mapInfo[id].fInTried
    requires m.mapInfo[id].nLastSuccess > 0
    ensures var m' := MakeTried(env, m, id);
            && m'.triedTable == m.triedTable[TriedSlot(env, m.nKey, m.mapInfo[id].service) := id]
            && m'.nLastGood == m.nLastGood
            && id in m'.mapInfo && m'.mapInfo[id].fInTried
            && m'.mapInfo[id].nLastSuccess == m.mapInfo[id].nLastSuccess
  {
    MakeTriedKeeps(env, m, id);
    MakeRoomKeeps(env, m, id);
  }

  // ---------------------------------------------------------------- Add

  predicate IsTerrible(info: Info, now: int) {
    if info.nLastTry != 0 && info.nLastTry >= now - 60 then false
    else
      || info.nTime > now + 10 * 60
      || info.nTime == 0 || now - info.nTime > HORIZON_DAYS * DAY
      || (info.nLastSuccess == 0 && info.nAttempts >= RETRIES)
      || (now - info.nLastSuccess > MIN_FAIL_DAYS * DAY && info.nAttempts >= MAX_FAILURES)
  }

  /** Whether an untried entry about to take slot `s` may displace what is there. */
  predicate MayTake(m: Manager, s: Slot, id: int, now: int)
    requires id in m.mapInfo && (s in m.newTable ==> m.newTable[s] in m.mapInfo)
  {
    s in m.newTable ==>
      var existing := m.mapInfo[m.newTable[s]];
      IsTerrible(existing, now) || (existing.nRefCount > 1 && m.mapInfo[id].nRefCount == 0)
  }

  /** An entry just created has no reference yet; any other untried entry has some. */
  predicate Placeable(env: Env, m: Manager, id: int, limbo: set<int>) {
    && Core(env, m, limbo) && id in m.mapInfo && !m.mapInfo[id].fInTried
    && m.mapInfo[id].nRefCount < NEW_BUCKETS_PER_ADDRESS
    && limbo == if m.mapInfo[id].nRefCount == 0 then {id} else {}
  }

  lemma PlaceableOccupant(env: Env, m: Manager, id: int, limbo: set<int>, s: Slot)
    requires Placeable(env, m, id, limbo)
    ensures Clearable(m, s)
    ensures s in m.newTable ==> m.newTable[s] in m.mapInfo && m.newTable[s] !in limbo
    ensures m.mapInfo[id].nRefCount == 0 ==> Deletable(m, id)
  {
    CoreClearable(env, m, s, limbo);
    assert Unreferenced(m.mapInfo, limbo);
    if s in m.newTable { Occupant(env, m, s, limbo); }
  }

  /** Give `id` the slot its address and `src` select, if it is free or may be taken; an entry
      left without any reference is deleted. */
  ghost function Place(env: Env, m: Manager, id: int, src: NetAddr, now: int, limbo: set<int>)
    : Manager
    requires Placeable(env, m, id, limbo)
  {
    var info := m.mapInfo[id];
    var s := NewSlot(env, m.nKey, info.service, NewBucket(env, m.nKey, info.service, src));
    PlaceableOccupant(env, m, id, limbo, s);
    if s in m.newTable && m.newTable[s] == id then m
    else if MayTake(m, s, id, now) then
      PlaceClears(env, m, id, limbo, s);
      Reference(ClearNew(m, s), s, id)
    else if info.nRefCount == 0 then Delete(m, id)
    else m
  }

  /** Clearing a slot for `id` leaves `id` itself as it was. */
  lemma PlaceClears(env: Env, m: Manager, id: int, limbo: set<int>, s: Slot)
    requires Placeable(env, m, id, limbo) && Clearable(m, s)
    requires s in m.newTable ==> m.newTable[s] != id
    ensures id in ClearNew(m, s).mapInfo
    ensures SameButPlace(m.mapInfo[id], ClearNew(m, s).mapInfo[id])
    ensures Core(env, ClearNew(m, s), limbo) && SameDrift(m, ClearNew(m, s), 0)
    ensures Bystanders(m, ClearNew(m, s), {})
    ensures ClearNew(m, s).newTable == m.newTable - {s}
    ensures ClearNew(m, s).triedTable == m.triedTable
  {
    PlaceableOccupant(env, m, id, limbo, s);
    hide Core, ClearNew, Clearable, TriedDrift, NewDrift;
    ClearNewKeeps(env, m, s, limbo);
    ClearServices(m, s);
  }

  lemma PlaceTakes(env: Env, m: Manager, id: int, limbo: set<int>, s: Slot, m1: Manager)
    requires Placeable(env, m, id, limbo) && Clearable(m, s) && m1 == ClearNew(m, s)
    requires s in m.newTable ==> m.newTable[s] != id
    requires s == NewSlot(env, m.nKey, m.mapInfo[id].service, s.bucket)
    requires 0 <= s.bucket < NEW_BUCKET_COUNT
    ensures id in m1.mapInfo
    ensures Core(env, Reference(m1, s, id), {}) && SameDrift(m, Reference(m1, s, id), 0)
    ensures Bystanders(m, Reference(m1, s, id), {})
    ensures Reference(m1, s, id).newTable == m.newTable[s := id]
    ensures Reference(m1, s, id).triedTable == m.triedTable
  {
    hide Core, ClearNew, Clearable, TriedDrift, NewDrift, NewSlot;
    PlaceClears(env, m, id, limbo, s);
    ReferenceKeeps(env, m1, s, id, limbo);
    assert limbo - {id} == {};
    ReferenceBystanders(m, m1, s, id);
  }

  lemma ReferenceBystanders(m: Manager, m1: Manager, s: Slot, id: int)
    requires id in m1.mapInfo && m1.newTable == m.newTable - {s} && Bystanders(m, m1, {})
    ensures Bystanders(m, Reference(m1, s, id), {})
    ensures Reference(m1, s, id).newTable == m.newTable[s := id]
  {
    assert m1.newTable[s := id] == m.newTable[s := id];
  }

  lemma PlaceKeeps(env: Env, m: Manager, id: int, src: NetAddr, now: int, limbo: set<int>)
    requires Placeable(env, m, id, limbo)
    ensures var m' := Place(env, m, id, src, now, limbo);
            && Core(env, m', {}) && SameDrift(m, m', 0) && Bystanders(m, m', {})
            && m'.triedTable == m.triedTable
  {
    var s := NewSlot(env, m.nKey, m.mapInfo[id].service,
                     NewBucket(env, m.nKey, m.mapInfo[id].service, src));
    PlaceableOccupant(env, m, id, limbo, s);
    if s in m.newTable && m.newTable[s] == id {
      assert limbo == {};
    } else if MayTake(m, s, id, now) {
      hide Core, ClearNew, Clearable, TriedDrift, NewDrift;
      PlaceTakes(env, m, id, limbo, s, ClearNew(m, s));
    } else if m.mapInfo[id].nRefCount == 0 {
      hide Core, Clearable, TriedDrift, NewDrift;
      DeleteKeeps(env, m, id, limbo);
      assert limbo - {id} == {};
      DeleteBystanders(m, id);
    }
  }

  lemma DeleteBystanders(m: Manager, id: int)
    requires Deletable(m, id)
    ensures Bystanders(m, Delete(m, id), {})
  {
  }

  /** The entry once another announcement of its address has been taken into account. */
  function Refreshed(info: Info, a: Address, penalty: int, now: int): Info {
    var interval := if now - a.nTime < DAY then 60 * 60 else DAY;
    var newer := a.nTime != 0
                 && (info.nTime == 0 || info.nTime < a.nTime - interval - penalty);
    info.(nTime := if newer then Max(0, a.nTime - penalty) % UINT32 else info.nTime,
          flags := info.flags + a.flags)
  }

  /** Each reference an entry has makes the next one twice as unlikely. */
  function Factor(n: int): (f: nat)
    ensures f >= 1
    decreases if n <= 0 then 0 else n
  {
    if n <= 0 then 1 else 2 * Factor(n - 1)
  }

  /** Whether an announcement of a known address may earn it one more reference, given the
      random number drawn for it. */
  predicate WantsReference(info: Info, a: Address, draw: nat) {
    && !(a.nTime == 0 || (info.nTime != 0 && a.nTime <= info.nTime))
    && !info.fInTried
    && info.nRefCount != NEW_BUCKETS_PER_ADDRESS
    && (Factor(info.nRefCount) > 1 ==> draw % Factor(info.nRefCount) == 0)
  }

  /** The manager with a freshly created and counted entry for an unknown address. */
  function WithEntry(m: Manager, a: Address, src: NetAddr, penalty: int): Manager {
    var m1 := Create(m, a, src);
    Touch(m1, m.nIdCount,
          m1.mapInfo[m.nIdCount].(nTime := Max(0, a.nTime - penalty) % UINT32))
      .(nNew := m.nNew + 1)
  }

  lemma WithEntryPlaceable(env: Env, m: Manager, a: Address, src: NetAddr, penalty: int)
    requires Inv(env, m) && a.service.ip !in m.mapAddr
    ensures var m1 := WithEntry(m, a, src, penalty);
            && Placeable(env, m1, m.nIdCount, {m.nIdCount}) && SameDrift(m, m1, 0)
            && m1.triedTable == m.triedTable && m1.collisions == m.collisions
            && m1.mapInfo[m.nIdCount].nRefCount == 0 && Evolves(m, m1)
  {
    hide Core, TriedDrift, NewDrift;
    CreateKeeps(env, m, a, src);
    var m1 := Create(m, a, src);
    var info := m1.mapInfo[m.nIdCount].(nTime := Max(0, a.nTime - penalty) % UINT32);
    TouchKeeps(env, m1, m.nIdCount, info, {m.nIdCount});
    CounterIrrelevant(env, Touch(m1, m.nIdCount, info), {m.nIdCount}, m.nNew + 1);
  }

  lemma CounterIrrelevant(env: Env, m: Manager, limbo: set<int>, nNew: int)
    requires Core(env, m, limbo)
    ensures Core(env, m.(nNew := nNew), limbo)
    ensures TriedDrift(m.(nNew := nNew)) == TriedDrift(m)
    ensures NewDrift(m.(nNew := nNew)) == NewDrift(m) + m.nNew - nNew
  {
  }

  lemma RefreshedPlaceable(env: Env, m: Manager, id: int, a: Address, penalty: int, now: int,
                           draw: nat)
    requires Inv(env, m) && id in m.mapInfo
    ensures var info := Refreshed(m.mapInfo[id], a, penalty, now);
            && Inv(env, Touch(m, id, info)) && Evolves(m, Touch(m, id, info))
            && (WantsReference(info, a, draw) ==> Placeable(env, Touch(m, id, info), id, {}))
  {
    var info := Refreshed(m.mapInfo[id], a, penalty, now);
    TimesOf(env, m, id);
    TouchStays(env, m, id, info);
    assert m.mapInfo[id].nRefCount <= NEW_BUCKETS_PER_ADDRESS;
    assert m.mapInfo[id].fInTried || m.mapInfo[id].nRefCount > 0;
    hide Core, TriedDrift, NewDrift;
  }

  /** Learn an address from `src`; true when it was unknown.  `now` and `later` are the two
      readings of the clock, `draw` the number the stochastic test uses. */
  ghost function Add(env: Env, m: Manager, a: Address, src: NetAddr, penalty: int,
                     now: int, later: int, draw: nat): (Manager, bool)
    requires Inv(env, m)
  {
    if !env.routable(a.service.ip) then (m, false)
    else
      var fine := if a.service.ip == src then 0 else penalty;
      if a.service.ip in m.mapAddr && m.mapAddr[a.service.ip] in m.mapInfo then
        var id := m.mapAddr[a.service.ip];
        var info := Refreshed(m.mapInfo[id], a, fine, now);
        RefreshedPlaceable(env, m, id, a, fine, now, draw);
        if WantsReference(info, a, draw)
        then (Place(env, Touch(m, id, info), id, src, later, {}), false)
        else (Touch(m, id, info), false)
      else
        assert a.service.ip !in m.mapAddr;
        WithEntryPlaceable(env, m, a, src, fine);
        (Place(env, WithEntry(m, a, src, fine), m.nIdCount, src, later, {m.nIdCount}), true)
  }

  lemma PlacedEvolves(m: Manager, m1: Manager, m2: Manager)
    requires Evolves(m, m1) && Bystanders(m1, m2, {}) && m2.triedTable == m1.triedTable
    ensures Evolves(m, m2)
  {
  }

  lemma AddKeeps(env: Env, m: Manager, a: Address, src: NetAddr, penalty: int,
                 now: int, later: int, draw: nat)
    requires Inv(env, m)
    ensures var (m', isNew) := Add(env, m, a, src, penalty, now, later, draw);
            && Inv(env, m') && Evolves(m, m') && m'.triedTable == m.triedTable
            && m'.collisions == m.collisions
            && (isNew <==> env.routable(a.service.ip) && a.service.ip !in m.mapAddr)
  {
    if env.routable(a.service.ip) {
      var fine := if a.service.ip == src then 0 else penalty;
      if a.service.ip in m.mapAddr {
        var id := m.mapAddr[a.service.ip];
        var info := Refreshed(m.mapInfo[id], a, fine, now);
        hide Core, TriedDrift, NewDrift, Refreshed, Place, WantsReference;
        RefreshedPlaceable(env, m, id, a, fine, now, draw);
        if WantsReference(info, a, draw) {
          PlaceKeeps(env, Touch(m, id, info), id, src, later, {});
          PlacedEvolves(m, Touch(m, id, info),
                        Place(env, Touch(m, id, info), id, src, later, {}));
        }
      } else {
        hide Core, TriedDrift, NewDrift, WithEntry, Place;
        WithEntryPlaceable(env, m, a, src, fine);
        var m1 := WithEntry(m, a, src, fine);
        PlaceKeeps(env, m1, m.nIdCount, src, later, {m.nIdCount});
        PlacedEvolves(m, m1, Place(env, m1, m.nIdCount, src, later, {m.nIdCount}));
      }
    }
  }
}
