/** The address manager as the program runs it: mutable fields, two bucket tables, loops over
    buckets.  Every method is proved to do to the state what its function does. */
module AddrMan {
  import opened Arithmetic
  import opened AddrManModel
  import opened AddrManOps
  import opened AddrManCalls
  import opened AddrManRuns

  // ---------------------------------------------------------------- bucket tables

  ghost function Slots(buckets: nat, size: nat): set<Slot> {
    set b, p | 0 <= b < buckets && 0 <= p < size :: Slot(b, p)
  }

  predicate Within(s: Slot, buckets: nat, size: nat) {
    0 <= s.bucket < buckets && 0 <= s.pos < size
  }

  lemma InSlots(s: Slot, buckets: nat, size: nat)
    ensures s in Slots(buckets, size) <==> Within(s, buckets, size)
  {
    assert s == Slot(s.bucket, s.pos);
  }

  /** The occupied slots of a table whose empty slots hold -1. */
  ghost function TableOf(a: array2<int>): Table
    reads a
  {
    map s | s in Slots(a.Length0, a.Length1)
            && Within(s, a.Length0, a.Length1) && a[s.bucket, s.pos] != -1 ::
      a[s.bucket, s.pos]
  }

  lemma TableAt(a: array2<int>, b: int, p: int)
    requires 0 <= b < a.Length0 && 0 <= p < a.Length1
    ensures Slot(b, p) in TableOf(a) <==> a[b, p] != -1
    ensures Slot(b, p) in TableOf(a) ==> TableOf(a)[Slot(b, p)] == a[b, p]
  {
    InSlots(Slot(b, p), a.Length0, a.Length1);
  }

  method SetSlot(a: array2<int>, b: int, p: int, v: int)
    requires 0 <= b < a.Length0 && 0 <= p < a.Length1
    modifies a
    ensures a[b, p] == v
    ensures TableOf(a) == if v == -1 then old(TableOf(a)) - {Slot(b, p)}
                          else old(TableOf(a))[Slot(b, p) := v]
  {
    ghost var before := TableOf(a);
    a[b, p] := v;
    forall s: Slot
      ensures s in TableOf(a) <==> if s == Slot(b, p) then v != -1 else s in before
      ensures s in TableOf(a) ==> TableOf(a)[s] == if s == Slot(b, p) then v else before[s]
    {
      InSlots(s, a.Length0, a.Length1);
    }
  }

  method ClearTable(a: array2<int>)
    modifies a
    ensures TableOf(a) == map[]
  {
    for b := 0 to a.Length0
      invariant forall i, j :: 0 <= i < b && 0 <= j < a.Length1 ==> a[i, j] == -1
    {
      for p := 0 to a.Length1
        invariant forall i, j :: 0 <= i < b && 0 <= j < a.Length1 ==> a[i, j] == -1
        invariant forall j :: 0 <= j < p ==> a[b, j] == -1
      {
        a[b, p] := -1;
      }
    }
  }

  // ---------------------------------------------------------------- loops as functions

  /** The slots MakeTried has cleared once it has visited the first `b` buckets. */
  ghost function OwnBelow(env: Env, m: Manager, id: int, b: int): set<Slot>
    requires id in m.mapInfo
  {
    set s | s in OwnSlots(env, m, id) && s.bucket < b
  }

  lemma OwnBelowStep(env: Env, m: Manager, id: int, b: int)
    requires id in m.mapInfo && 0 <= b < NEW_BUCKET_COUNT
    ensures var s := NewSlot(env, m.nKey, m.mapInfo[id].service, b);
            if s in m.newTable && m.newTable[s] == id
            then OwnBelow(env, m, id, b + 1) == OwnBelow(env, m, id, b) + {s}
                 && s !in OwnBelow(env, m, id, b)
            else OwnBelow(env, m, id, b + 1) == OwnBelow(env, m, id, b)
  {
  }

  ghost function WithdrawBelow(env: Env, m: Manager, id: int, b: int): Manager
    requires id in m.mapInfo
  {
    m.(newTable := m.newTable - OwnBelow(env, m, id, b),
       mapInfo := SetRef(m, id, m.mapInfo[id].nRefCount - |OwnBelow(env, m, id, b)|))
  }

  /** One more bucket visited. */
  lemma WithdrawStep(env: Env, m: Manager, id: int, b: int)
    requires id in m.mapInfo && 0 <= b < NEW_BUCKET_COUNT
    ensures var s := NewSlot(env, m.nKey, m.mapInfo[id].service, b);
            var before := WithdrawBelow(env, m, id, b);
            WithdrawBelow(env, m, id, b + 1) ==
              if s in before.newTable && before.newTable[s] == id
              then before.(newTable := before.newTable - {s},
                           mapInfo := SetRef(before, id, before.mapInfo[id].nRefCount - 1))
              else before
  {
    OwnBelowStep(env, m, id, b);
    var s := NewSlot(env, m.nKey, m.mapInfo[id].service, b);
    var own := OwnBelow(env, m, id, b);
    assert s !in own;
    assert m.newTable - own - {s} == m.newTable - (own + {s});
  }

  lemma SlotIs(env: Env, key: nat, s: Service, bucket: int)
    ensures NewSlot(env, key, s, bucket) == Slot(bucket, Position(env, key, s, true, bucket))
  {
  }

  lemma WithdrawDone(env: Env, m: Manager, id: int)
    requires id in m.mapInfo
    ensures WithdrawBelow(env, m, id, 0) == m
    ensures WithdrawBelow(env, m, id, NEW_BUCKET_COUNT).(nNew := m.nNew - 1) == Withdraw(env, m, id)
  {
    assert OwnBelow(env, m, id, 0) == {};
    assert OwnBelow(env, m, id, NEW_BUCKET_COUNT) == OwnSlots(env, m, id);
    assert m.newTable - {} == m.newTable;
    assert m.mapInfo[id := m.mapInfo[id]] == m.mapInfo;
  }

  // ---------------------------------------------------------------- the manager

  class AddressManager {
    const env: Env
    const vvTried: array2<int>
    const vvNew: array2<int>

    var nKey: nat
    var nIdCount: int
    var mapInfo: map<int, Info>
    var mapAddr: map<NetAddr, int>
    var vRandom: seq<int>
    var nTried: int
    var nNew: int
    var nLastGood: int
    var triedCollisions: set<nat>

    ghost predicate Shaped() {
      && vvTried.Length0 == TRIED_BUCKET_COUNT && vvTried.Length1 == BUCKET_SIZE
      && vvNew.Length0 == NEW_BUCKET_COUNT && vvNew.Length1 == BUCKET_SIZE
      && vvTried != vvNew
    }

    ghost function State(): Manager
      reads this, vvTried, vvNew
    {
      Manager(nKey, nIdCount, mapInfo, mapAddr, vRandom, nTried, TableOf(vvTried),
              nNew, TableOf(vvNew), nLastGood, triedCollisions)
    }

    constructor (env: Env, key: nat)
      ensures Shaped() && this.env == env && fresh(vvTried) && fresh(vvNew)
      ensures State() == Empty(key, {})
    {
      this.env := env;
      vvTried := new int[TRIED_BUCKET_COUNT, BUCKET_SIZE];
      vvNew := new int[NEW_BUCKET_COUNT, BUCKET_SIZE];
      triedCollisions := {};
      new;
      Clear(key);
    }

    /** Forget everything but the pending collisions, under a new key. */
    method Clear(key: nat)
      requires Shaped()
      modifies this, vvTried, vvNew
      ensures State() == Empty(key, old(triedCollisions))
    {
      vRandom := [];
      nKey := key;
      ClearTable(vvNew);
      ClearTable(vvTried);
      nIdCount := 0;
      nTried := 0;
      nNew := 0;
      nLastGood := 1;
      mapInfo := map[];
      mapAddr := map[];
    }

    method Find(ip: NetAddr) returns (found: bool, id: int)
      ensures found <==> ip in mapAddr && mapAddr[ip] in mapInfo
      ensures found ==> id == mapAddr[ip]
    {
      if ip !in mapAddr {
        return false, 0;
      }
      id := mapAddr[ip];
      found := id in mapInfo;
    }

    method Create(a: Address, src: NetAddr) returns (id: int)
      modifies this
      ensures id == old(nIdCount)
      ensures State() == AddrManOps.Create(old(State()), a, src)
    {
      id := nIdCount;
      nIdCount := nIdCount + 1;
      mapInfo := mapInfo[id := NewInfo(a, src, |vRandom|)];
      mapAddr := mapAddr[a.service.ip := id];
      vRandom := vRandom + [id];
    }

    method SwapRandom(i: int, j: int)
      requires 0 <= i < |vRandom| && vRandom[i] in mapInfo
      requires 0 <= j < |vRandom| && vRandom[j] in mapInfo
      modifies this
      ensures State() == AddrManOps.SwapRandom(old(State()), i, j)
    {
      if i == j {
        return;
      }
      var id1, id2 := vRandom[i], vRandom[j];
      mapInfo := mapInfo[id1 := mapInfo[id1].(nRandomPos := j)];
      mapInfo := mapInfo[id2 := mapInfo[id2].(nRandomPos := i)];
      vRandom := vRandom[i := id2];
      vRandom := vRandom[j := id1];
    }

    method Delete(id: int)
      requires Deletable(State(), id)
      modifies this
      ensures State() == AddrManOps.Delete(old(State()), id)
    {
      hide TableOf;
      var ip := mapInfo[id].service.ip;
      SwapRandom(mapInfo[id].nRandomPos, |vRandom| - 1);
      vRandom := vRandom[..|vRandom| - 1];
      mapAddr := mapAddr - {ip};
      mapInfo := mapInfo - {id};
      nNew := nNew - 1;
    }

    method ClearNew(b: int, p: int)
      requires Shaped() && 0 <= b < NEW_BUCKET_COUNT && 0 <= p < BUCKET_SIZE
      requires Clearable(State(), Slot(b, p))
      modifies this, vvNew
      ensures State() == AddrManOps.ClearNew(old(State()), Slot(b, p))
      ensures vvNew[b, p] == -1
    {
      TableAt(vvNew, b, p);
      if vvNew[b, p] != -1 {
        var id := vvNew[b, p];
        assert mapInfo[id].nRefCount > 0;
        mapInfo := mapInfo[id := mapInfo[id].(nRefCount := mapInfo[id].nRefCount - 1)];
        SetSlot(vvNew, b, p, -1);
        assert State() == Dereference(old(State()), Slot(b, p));
        if mapInfo[id].nRefCount == 0 {
          Delete(id);
        }
      }
    }

    /** Take an entry out of every new bucket it is in. */
    method WithdrawAll(id: int)
      requires Shaped() && id in mapInfo && id >= 0
      modifies this, vvNew
      ensures State() == Withdraw(env, old(State()), id)
    {
      hide TableOf, OwnBelow, OwnSlots, WithdrawBelow, Withdraw, NewSlot, Position;
      ghost var m := State();
      WithdrawDone(env, m, id);
      for bucket := 0 to NEW_BUCKET_COUNT
        invariant State() == WithdrawBelow(env, m, id, bucket)
        invariant id in mapInfo && mapInfo[id].service == m.mapInfo[id].service && nKey == m.nKey
        invariant nNew == m.nNew
      {
        SlotIs(env, nKey, mapInfo[id].service, bucket);
        WithdrawStep(env, m, id, bucket);
        var pos := Position(env, nKey, mapInfo[id].service, true, bucket);
        TableAt(vvNew, bucket, pos);
        if vvNew[bucket, pos] == id {
          SetSlot(vvNew, bucket, pos, -1);
          mapInfo := mapInfo[id := mapInfo[id].(nRefCount := mapInfo[id].nRefCount - 1)];
        }
      }
      nNew := nNew - 1;
    }

    /** Move what holds a tried slot back to the new table. */
    method EvictTried(b: int, p: int, ghost limbo: set<int>)
      requires Shaped() && 0 <= b < TRIED_BUCKET_COUNT && 0 <= p < BUCKET_SIZE
      requires Core(env, State(), limbo) && Unreferenced(mapInfo, limbo)
      requires Slot(b, p) in State().triedTable && State().triedTable[Slot(b, p)] !in limbo
      modifies this, vvTried, vvNew
      ensures State() == Evict(env, old(State()), Slot(b, p), limbo)
      ensures vvTried[b, p] == -1
    {
      hide TableOf, Core, AddrManOps.ClearNew, Clearable, Unreferenced, NewBucket, Position, TriedSlot;
      ghost var m := State();
      DemoteAndClear(env, m, Slot(b, p), limbo);
      TriedEntry(env, m, Slot(b, p), limbo);
      TableAt(vvTried, b, p);
      var id := vvTried[b, p];
      mapInfo := mapInfo[id := mapInfo[id].(fInTried := false)];
      SetSlot(vvTried, b, p, -1);
      nTried := nTried - 1;
      assert State() == Demote(m, Slot(b, p));
      var bucket := NewBucket(env, nKey, mapInfo[id].service, mapInfo[id].source);
      var pos := Position(env, nKey, mapInfo[id].service, true, bucket);
      ClearNew(bucket, pos);
      mapInfo := mapInfo[id := mapInfo[id].(nRefCount := 1)];
      SetSlot(vvNew, bucket, pos, id);
      nNew := nNew + 1;
    }

    method EnterTried(b: int, p: int, id: int)
      requires Shaped() && 0 <= b < TRIED_BUCKET_COUNT && 0 <= p < BUCKET_SIZE
      requires id in mapInfo && id >= 0
      modifies this, vvTried
      ensures State() == Promote(old(State()), Slot(b, p), id)
    {
      SetSlot(vvTried, b, p, id);
      nTried := nTried + 1;
      mapInfo := mapInfo[id := mapInfo[id].(fInTried := true)];
    }

    method MakeTried(id: int)
      requires Shaped() && Core(env, State(), {}) && id in mapInfo && !mapInfo[id].fInTried
      modifies this, vvTried, vvNew
      ensures State() == AddrManCalls.MakeTried(env, old(State()), id)
    {
      hide TableOf, Core, Withdraw, Evict, TriedBucket, Position;
      ghost var m := State();
      CoreId(env, m, id);
      WithdrawForTried(env, m, id);
      MakeRoomKeeps(env, m, id);
      WithdrawAll(id);
      assert mapInfo[id].nRefCount == 0;
      var b := TriedBucket(env, nKey, mapInfo[id].service);
      var p := Position(env, nKey, mapInfo[id].service, false, b);
      assert TriedSlot(env, m.nKey, m.mapInfo[id].service) == Slot(b, p);
      TableAt(vvTried, b, p);
      if vvTried[b, p] != -1 {
        EvictTried(b, p, {id});
      }
      assert State() == MakeRoom(env, m, id);
      hide MakeRoom;
      EnterTried(b, p, id);
    }

    /** Starting anywhere, some bucket that holds `id` at its own position, or -1. */
    method FindBucket(id: int, start: nat) returns (bucket: int)
      requires Shaped() && id in mapInfo && id >= 0 && start < NEW_BUCKET_COUNT
      ensures bucket == -1 <==> OwnSlots(env, State(), id) == {}
      ensures bucket != -1 ==> NewSlot(env, nKey, mapInfo[id].service, bucket) in OwnSlots(env, State(), id)
    {
      for n := 0 to NEW_BUCKET_COUNT
        invariant forall k :: 0 <= k < n ==> !HoldsFrom(id, start, k)
      {
        var b := (n + start) % NEW_BUCKET_COUNT;
        HoldsAt(id, b);
        if vvNew[b, Position(env, nKey, mapInfo[id].service, true, b)] == id {
          return b;
        }
      }
      forall s | s in OwnSlots(env, State(), id)
        ensures false
      {
        var k := (s.bucket + NEW_BUCKET_COUNT - start) % NEW_BUCKET_COUNT;
        assert (k + start) % NEW_BUCKET_COUNT == s.bucket;
        assert HoldsFrom(id, start, k);
      }
      return -1;
    }

    ghost predicate Holds(id: int, b: int)
      requires id in mapInfo
      reads this, vvTried, vvNew
    {
      NewSlot(env, nKey, mapInfo[id].service, b) in OwnSlots(env, State(), id)
    }

    ghost predicate HoldsFrom(id: int, start: nat, k: int)
      requires id in mapInfo
      reads this, vvTried, vvNew
    {
      Holds(id, (k + start) % NEW_BUCKET_COUNT)
    }

    lemma HoldsAt(id: int, b: int)
      requires Shaped() && id in mapInfo && id >= 0 && 0 <= b < NEW_BUCKET_COUNT
      ensures Holds(id, b) <==> vvNew[b, Position(env, nKey, mapInfo[id].service, true, b)] == id
    {
      TableAt(vvNew, b, Position(env, nKey, mapInfo[id].service, true, b));
    }

    method Good(s: Service, testFirst: bool, time: int)
      requires Shaped() && Inv(env, State()) && time > 0
      modifies this, vvTried, vvNew
      ensures State() == AddrManCalls.Good(env, old(State()), s, testFirst, time)
    {
      hide TableOf, Core, OwnSlots, TriedBucket, Position, TriedDrift, NewDrift;
      ghost var m := State();
      nLastGood := time;
      var found, id := Find(s.ip);
      if !found || mapInfo[id].service != s {
        return;
      }
      TimesOf(env, m, id);
      mapInfo := mapInfo[id := Praised(mapInfo[id], time)];
      if mapInfo[id].fInTried {
        return;
      }
      TouchStays(env, m, id, Praised(m.mapInfo[id], time));
      LastGoodIrrelevant(env, Touch(m, id, Praised(m.mapInfo[id], time)), time);
      var start: nat :| start < NEW_BUCKET_COUNT;
      var bucket := FindBucket(id, start);
      if bucket == -1 {
        return;
      }
      var b := TriedBucket(env, nKey, s);
      var p := Position(env, nKey, s, false, b);
      TableAt(vvTried, b, p);
      if testFirst && vvTried[b, p] != -1 {
        if |triedCollisions| < TRIED_COLLISION_SIZE {
          triedCollisions := triedCollisions + {id};
        }
      } else {
        MakeTried(id);
      }
    }

    method Attempt(s: Service, countFailure: bool, time: int)
      modifies this
      ensures State() == AddrManCalls.Attempt(old(State()), s, countFailure, time)
    {
      var found, id := Find(s.ip);
      if !found || mapInfo[id].service != s {
        return;
      }
      mapInfo := mapInfo[id := mapInfo[id].(nLastTry := time)];
      if countFailure && mapInfo[id].nLastCountAttempt < nLastGood {
        mapInfo := mapInfo[id := mapInfo[id].(nLastCountAttempt := time,
                                              nAttempts := mapInfo[id].nAttempts + 1)];
      }
    }

    method Connected(s: Service, time: int)
      modifies this
      ensures State() == AddrManCalls.Connected(old(State()), s, time)
    {
      var found, id := Find(s.ip);
      if !found || mapInfo[id].service != s {
        return;
      }
      if time - mapInfo[id].nTime > 20 * 60 {
        mapInfo := mapInfo[id := mapInfo[id].(nTime := time % UINT32)];
      }
    }

    method SetServices(s: Service, flags: set<nat>)
      modifies this
      ensures State() == AddrManCalls.SetServices(old(State()), s, flags)
    {
      var found, id := Find(s.ip);
      if !found || mapInfo[id].service != s {
        return;
      }
      mapInfo := mapInfo[id := mapInfo[id].(flags := flags)];
    }

    /** Put an untried entry into the slot its address and `src` select. */
    method PlaceNew(id: int, src: NetAddr, now: int, ghost limbo: set<int>)
      requires Shaped() && Placeable(env, State(), id, limbo) && id >= 0
      modifies this, vvNew
      ensures State() == Place(env, old(State()), id, src, now, limbo)
    {
      hide TableOf, Core, Clearable, Deletable, Position, NewBucket, IsTerrible;
      ghost var m := State();
      var b := NewBucket(env, nKey, mapInfo[id].service, src);
      var p := Position(env, nKey, mapInfo[id].service, true, b);
      PlaceableOccupant(env, m, id, limbo, Slot(b, p));
      TableAt(vvNew, b, p);
      if vvNew[b, p] != id {
        var insert := vvNew[b, p] == -1;
        if !insert {
          var existing := mapInfo[vvNew[b, p]];
          if IsTerrible(existing, now)
             || (existing.nRefCount > 1 && mapInfo[id].nRefCount == 0) {
            insert := true;
          }
        }
        if insert {
          PlaceClears(env, m, id, limbo, Slot(b, p));
          ClearNew(b, p);
          mapInfo := mapInfo[id := mapInfo[id].(nRefCount := mapInfo[id].nRefCount + 1)];
          SetSlot(vvNew, b, p, id);
        } else if mapInfo[id].nRefCount == 0 {
          Delete(id);
        }
      }
    }

    /** The stochastic test: does the number drawn let an entry with `refs` references have one
        more? */
    method Draws(refs: int, draw: nat) returns (ok: bool)
      requires refs >= 0
      ensures ok <==> (Factor(refs) > 1 ==> draw % Factor(refs) == 0)
    {
      var factor := 1;
      for n := 0 to refs
        invariant factor == Factor(n)
      {
        factor := factor * 2;
      }
      ok := !(factor > 1 && draw % factor != 0);
    }

    /** Take the time and services of another announcement into account. */
    method Refresh(id: int, a: Address, fine: int, now: int)
      requires id in mapInfo
      modifies this
      ensures State() == Touch(old(State()), id, Refreshed(old(mapInfo)[id], a, fine, now))
    {
      hide TableOf;
      var info := mapInfo[id];
      var interval := if now - a.nTime < DAY then 60 * 60 else DAY;
      if a.nTime != 0 && (info.nTime == 0 || info.nTime < a.nTime - interval - fine) {
        info := info.(nTime := Max(0, a.nTime - fine) % UINT32);
      }
      info := info.(flags := info.flags + a.flags);
      mapInfo := mapInfo[id := info];
    }

    /** Another announcement of a known address. */
    method AddKnown(id: int, a: Address, src: NetAddr, fine: int, now: int, later: int, draw: nat)
      requires Shaped() && Inv(env, State()) && id in mapInfo
      modifies this, vvNew
      ensures var info := Refreshed(old(mapInfo)[id], a, fine, now);
              WantsReference(info, a, draw) ==>
                && Placeable(env, Touch(old(State()), id, info), id, {})
                && State() == Place(env, Touch(old(State()), id, info), id, src, later, {})
      ensures var info := Refreshed(old(mapInfo)[id], a, fine, now);
              !WantsReference(info, a, draw) ==> State() == Touch(old(State()), id, info)
    {
      hide TableOf, Core, TriedDrift, NewDrift, Place;
      ghost var m := State();
      TimesOf(env, m, id);
      RefsNonNegative(env, m, id);
      RefreshedPlaceable(env, m, id, a, fine, now, draw);
      Refresh(id, a, fine, now);
      hide Refreshed;
      if a.nTime == 0 || (mapInfo[id].nTime != 0 && a.nTime <= mapInfo[id].nTime) {
        return;
      }
      if mapInfo[id].fInTried || mapInfo[id].nRefCount == NEW_BUCKETS_PER_ADDRESS {
        return;
      }
      var ok := Draws(mapInfo[id].nRefCount, draw);
      if ok {
        PlaceNew(id, src, later, {});
      }
    }

    /** The first announcement of an address. */
    method AddUnknown(a: Address, src: NetAddr, fine: int, later: int)
      requires Shaped() && Inv(env, State()) && a.service.ip !in mapAddr
      modifies this, vvNew
      ensures var m1 := WithEntry(old(State()), a, src, fine);
              && Placeable(env, m1, old(nIdCount), {old(nIdCount)})
              && State() == Place(env, m1, old(nIdCount), src, later, {old(nIdCount)})
    {
      hide TableOf, Core, TriedDrift, NewDrift, Place;
      ghost var m := State();
      WithEntryPlaceable(env, m, a, src, fine);
      UnknownAddress(env, m, a.service.ip);
      var id := Create(a, src);
      mapInfo := mapInfo[id := mapInfo[id].(nTime := Max(0, mapInfo[id].nTime - fine) % UINT32)];
      nNew := nNew + 1;
      assert State() == WithEntry(m, a, src, fine);
      PlaceNew(id, src, later, {id});
    }

    method Add(a: Address, src: NetAddr, penalty: int, now: int, later: int, draw: nat)
      returns (isNew: bool)
      requires Shaped() && Inv(env, State())
      modifies this, vvTried, vvNew
      ensures (State(), isNew)
           == AddrManCalls.Add(env, old(State()), a, src, penalty, now, later, draw)
    {
      hide TableOf, Core, TriedDrift, NewDrift, Place, WithEntry, Refreshed, WantsReference;
      if !env.routable(a.service.ip) {
        return false;
      }
      var found, id := Find(a.service.ip);
      var fine := if a.service.ip == src then 0 else penalty;
      if found {
        AddKnown(id, a, src, fine, now, later, draw);
        return false;
      }
      UnknownAddress(env, State(), a.service.ip);
      AddUnknown(a, src, fine, later);
      return true;
    }

    /** Swap a random later entry into place `n`. */
    method DrawAt(n: int, ghost m: Manager, ghost swaps: seq<(int, int)>)
      returns (ghost swaps': seq<(int, int)>)
      requires Inv(env, m) && InRange(m, swaps) && State() == Shuffle(env, m, swaps)
      requires 0 <= n < |vRandom|
      modifies this
      ensures InRange(m, swaps') && State() == Shuffle(env, m, swaps')
      ensures |vRandom| == |old(vRandom)| && vRandom[..n] == old(vRandom)[..n]
      ensures vRandom[n] in mapInfo
    {
      hide TableOf, Core, TriedDrift, NewDrift;
      var k: int :| n <= k < |vRandom|;
      swaps' := swaps + [(n, k)];
      assert swaps'[..|swaps|] == swaps;
      SwapStays(env, m, State(), n, k);
      SwapRandom(n, k);
    }

    /** A random sample of the addresses worth passing on, drawn by shuffling vRandom: no address
        twice, none that is terrible, at most a fixed share, and all of the good ones when fewer
        than that are returned. */
    method GetAddr(now: int)
      returns (addrs: seq<Address>, ghost ids: seq<int>, ghost swaps: seq<(int, int)>)
      requires Shaped() && Inv(env, State())
      modifies this
      ensures InRange(old(State()), swaps) && State() == Shuffle(env, old(State()), swaps)
      ensures Sample(old(mapInfo), now, addrs, ids)
      ensures |addrs| <= SampleSize(|old(vRandom)|)
      ensures |addrs| < SampleSize(|old(vRandom)|) ==>
                forall id :: id in old(mapInfo) && !IsTerrible(old(mapInfo)[id], now) ==> id in ids
    {
      hide TableOf, Inv, IsTerrible, Sample, Covers, Shuffle, InRange, Relocated;
      ghost var m := State();
      var limit := SampleSize(|vRandom|);
      addrs, ids, swaps := [], [], [];
      var n := 0;
      SampleStart(env, m, now);
      while n < |vRandom| && |addrs| < limit
        invariant 0 <= n <= |vRandom| && |addrs| <= limit
        invariant InRange(m, swaps) && State() == Shuffle(env, m, swaps)
        invariant Sample(m.mapInfo, now, addrs, ids)
        invariant Covers(m.mapInfo, now, vRandom, n, ids)
      {
        ghost var before := vRandom;
        swaps := DrawAt(n, m, swaps);
        var id := vRandom[n];
        SampledInfo(env, m, State(), id, now);
        CoversFresh(env, State(), m.mapInfo, now, before, n, ids);
        if IsTerrible(mapInfo[id], now) {
          CoversStep(m.mapInfo, now, before, vRandom, n, ids, ids);
        } else {
          CoversStep(m.mapInfo, now, before, vRandom, n, ids, ids + [id]);
          SampleStep(m.mapInfo, now, addrs, ids, id);
          addrs := addrs + [AddressOf(mapInfo[id])];
          ids := ids + [id];
        }
        n := n + 1;
      }
      if |addrs| < limit {
        CoversAll(env, m, State(), now, ids);
      }
    }

    /** Decide one pending collision: true when it need not stay pending. */
    method ResolveCollision(id: nat, clock: Clock) returns (settled: bool)
      requires Shaped() && Inv(env, State()) && clock.start > 0 && clock.good(id) > 0
      modifies this, vvTried, vvNew
      ensures (State(), settled) == ResolveOne(env, old(State()), id, clock)
    {
      hide TableOf, Core, AddrManCalls.Good, TriedBucket, Position, TriedDrift, NewDrift;
      if id !in mapInfo {
        return true;
      }
      var service := mapInfo[id].service;
      var b := TriedBucket(env, nKey, service);
      var p := Position(env, nKey, service, false, b);
      TableAt(vvTried, b, p);
      if !env.valid(service.ip) {
        return true;
      }
      if vvTried[b, p] == -1 {
        Good(service, false, clock.start);
        return true;
      }
      RivalKnown(env, State(), Slot(b, p));
      var rival := mapInfo[vvTried[b, p]];
      if clock.start - rival.nLastSuccess < REPLACEMENT_SECONDS {
        return true;
      }
      if clock.start - rival.nLastTry < REPLACEMENT_SECONDS {
        if clock.check(id) - rival.nLastTry > 60 {
          Good(service, false, clock.good(id));
          return true;
        }
      }
      return false;
    }

    method ResolveCollisions(clock: Clock)
      requires Shaped() && Inv(env, State()) && Positive(clock, triedCollisions)
      modifies this, vvTried, vvNew
      ensures State() == Resolve(env, old(State()), old(triedCollisions), clock)
    {
      hide TableOf, Inv, ResolveOne;
      var pending := triedCollisions;
      while pending != {}
        invariant Inv(env, State()) && Positive(clock, pending)
        invariant Resolve(env, State(), pending, clock)
               == Resolve(env, old(State()), old(triedCollisions), clock)
      {
        ghost var m := State();
        ghost var least := Least(pending);
        var id :| id in pending && forall other :: other in pending ==> id <= other;
        var settled := ResolveCollision(id, clock);
        ResolveOneKeeps(env, m, id, clock, State(), settled);
        if settled {
          triedCollisions := triedCollisions - {id};
        }
        assert id == least;
        pending := pending - {id};
      }
    }

    /** The tried entry a pending newcomer is waiting to replace, if the entry drawn is known. */
    method SelectTriedCollision(choice: nat) returns (r: Selection)
      requires Shaped() && (triedCollisions != {} ==> choice in triedCollisions)
      modifies this
      ensures (State(), r) == Select(env, old(State()), choice)
    {
      if triedCollisions == {} {
        return Nothing;
      }
      if choice !in mapInfo {
        triedCollisions := triedCollisions - {choice};
        return Nothing;
      }
      var b := TriedBucket(env, nKey, mapInfo[choice].service);
      var p := Position(env, nKey, mapInfo[choice].service, false, b);
      TableAt(vvTried, b, p);
      return LookedUp(vvTried[b, p]);
    }
  }

  lemma CoreId(env: Env, m: Manager, id: int)
    requires Core(env, m, {}) && id in m.mapInfo
    ensures id >= 0
  {
  }

  lemma RivalKnown(env: Env, m: Manager, s: Slot)
    requires Inv(env, m) && s in m.triedTable
    ensures m.triedTable[s] in m.mapInfo
  {
  }


  /** Twenty-three percent of the addresses, rounded down, and at most 2500. */
  function SampleSize(total: nat): (size: nat)
    ensures 100 * size <= 23 * total && size <= 2500
    ensures 23 * total < 100 * (size + 1) || size == 2500
  {
    var n := GETADDR_MAX_PCT * total / 100;
    if n > GETADDR_MAX then GETADDR_MAX else n
  }

  function AddressOf(info: Info): Address {
    Address(info.service, info.flags, info.nTime)
  }

  /** `addrs` are the addresses of the distinct entries `ids`, none of them terrible. */
  predicate Sample(infos: Infos, now: int, addrs: seq<Address>, ids: seq<int>) {
    && |addrs| == |ids|
    && (forall k :: 0 <= k < |ids| ==>
          && ids[k] in infos && !IsTerrible(infos[ids[k]], now)
          && addrs[k] == AddressOf(infos[ids[k]]))
    && (forall j, k :: 0 <= j < k < |ids| ==> ids[j] != ids[k])
  }

  /** The entries sampled so far are the good ones among the first `n` of `v`. */
  predicate Covers(infos: Infos, now: int, v: seq<int>, n: nat, ids: seq<int>) {
    && n <= |v|
    && (forall k :: 0 <= k < n ==> v[k] in infos && (v[k] in ids || IsTerrible(infos[v[k]], now)))
    && (forall j :: 0 <= j < |ids| ==> ids[j] in v[..n])
  }

  lemma SampleStart(env: Env, m: Manager, now: int)
    requires Inv(env, m)
    ensures Sample(m.mapInfo, now, [], []) && Covers(m.mapInfo, now, m.vRandom, 0, [])
    ensures InRange(m, []) && m == Shuffle(env, m, [])
  {
  }

  lemma SampleStep(infos: Infos, now: int, addrs: seq<Address>, ids: seq<int>, id: int)
    requires Sample(infos, now, addrs, ids) && id in infos && !IsTerrible(infos[id], now)
    requires id !in ids
    ensures Sample(infos, now, addrs + [AddressOf(infos[id])], ids + [id])
  {
  }

  lemma SampledInfo(env: Env, m: Manager, m': Manager, id: int, now: int)
    requires Relocated(m, m') && id in m'.mapInfo
    ensures id in m.mapInfo && IsTerrible(m'.mapInfo[id], now) == IsTerrible(m.mapInfo[id], now)
    ensures AddressOf(m'.mapInfo[id]) == AddressOf(m.mapInfo[id])
  {
    assert SameButPlace(m.mapInfo[id], m'.mapInfo[id]);
  }


  /** The entry just drawn was not drawn before: vRandom lists no id twice. */
  lemma CoversFresh(env: Env, m: Manager, infos: Infos, now: int, before: seq<int>, n: nat,
                    ids: seq<int>)
    requires Inv(env, m) && Covers(infos, now, before, n, ids)
    requires n < |m.vRandom| && m.vRandom[..n] == before[..n]
    ensures m.vRandom[n] !in ids
  {
    InvShuffled(env, m);
    hide Inv;
  }

  lemma CoversStep(infos: Infos, now: int, before: seq<int>, after: seq<int>, n: nat,
                   was: seq<int>, ids: seq<int>)
    requires Covers(infos, now, before, n, was) && |after| == |before| && n < |after|
    requires after[..n] == before[..n] && after[n] in infos
    requires if IsTerrible(infos[after[n]], now) then ids == was else ids == was + [after[n]]
    ensures Covers(infos, now, after, n + 1, ids)
  {
    forall k | 0 <= k < n
      ensures after[k] == before[k]
    {
      assert after[..n][k] == before[..n][k];
    }
    assert after[..n + 1] == after[..n] + [after[n]];
  }

  lemma CoversAll(env: Env, m: Manager, m': Manager, now: int, ids: seq<int>)
    requires Relocated(m, m') && Inv(env, m')
    requires Covers(m.mapInfo, now, m'.vRandom, |m'.vRandom|, ids)
    ensures forall id :: id in m.mapInfo && !IsTerrible(m.mapInfo[id], now) ==> id in ids
  {
    InvShuffled(env, m');
    hide Inv;
    forall id | id in m.mapInfo
      ensures id in ids || IsTerrible(m.mapInfo[id], now)
    {
      assert m'.vRandom[m'.mapInfo[id].nRandomPos] == id;
    }
  }

  lemma InvShuffled(env: Env, m: Manager)
    requires Inv(env, m)
    ensures Shuffled(m.mapInfo, m.vRandom)
  {
  }

  lemma RefsNonNegative(env: Env, m: Manager, id: int)
    requires Inv(env, m) && id in m.mapInfo
    ensures m.mapInfo[id].nRefCount >= 0
  {
    RefOf(m.mapInfo, m.newTable, id);
  }

  lemma UnknownAddress(env: Env, m: Manager, ip: NetAddr)
    requires Inv(env, m) && !(ip in m.mapAddr && m.mapAddr[ip] in m.mapInfo)
    ensures ip !in m.mapAddr && m.nIdCount >= 0
  {
  }
}
