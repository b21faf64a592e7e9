/** What an announcement changes: which slot of the new table it may take and from whom, and what it leaves in
    the record of an address known already. */
module AddrManNews {
  import opened Arithmetic
  import opened AddrManModel
  import opened AddrManOps
  import opened AddrManCalls

  const HOUR := 3600
  const UINT32_RANGE := 0x1_0000_0000

  // ---------------------------------------------------------------- which addresses are not worth keeping

  /** Tried in the last minute: never.  Otherwise: dated more than ten minutes ahead, or not seen for thirty days,
      or three times tried without ever a success, or ten times since a success more than a week ago. */
  lemma TerribleIff(info: Info, now: int)
    ensures IsTerrible(info, now) <==>
      && (info.nLastTry == 0 || info.nLastTry + 60 < now)
      && (|| now + 600 < info.nTime
          || info.nTime == 0
          || info.nTime + 2_592_000 < now
          || (info.nLastSuccess == 0 && info.nAttempts >= 3)
          || (info.nLastSuccess + 604_800 < now && info.nAttempts >= 10))
  {
  }

  // ---------------------------------------------------------------- where addresses go

  /** An address range gets eight of the 256 tried buckets, chosen by the secret key, and one place in each. */
  lemma TriedSpread(env: Env, key: nat, s: Service)
    ensures exists i ::
      0 <= i < 8 && TriedBucket(env, key, s) == env.hash([Key(key), Group(env.group(s.ip)), Number(i)]) % 256
    ensures TriedSlot(env, key, s) == var b := TriedBucket(env, key, s);
      Slot(b, env.hash([Key(key), Letter('K'), Number(b), Endpoint(s)]) % 64)
  {
    var i := env.hash([Key(key), Endpoint(s)]) % 8;
    assert TriedBucket(env, key, s) == env.hash([Key(key), Group(env.group(s.ip)), Number(i)]) % 256;
  }

  /** The sources of an address range put what they announce in 64 of the 1024 new buckets, chosen by the key; all
      addresses of a range go to the same one. */
  lemma NewSpread(env: Env, key: nat, s: Service, src: NetAddr, t: Service, from: NetAddr)
    ensures exists i ::
      0 <= i < 64 && NewBucket(env, key, s, src) == env.hash([Key(key), Group(env.group(src)), Number(i)]) % 1024
    ensures env.group(s.ip) == env.group(t.ip) && env.group(src) == env.group(from) ==>
      NewBucket(env, key, s, src) == NewBucket(env, key, t, from)
    ensures var b := NewBucket(env, key, s, src);
      NewSlot(env, key, s, b) == Slot(b, env.hash([Key(key), Letter('N'), Number(b), Endpoint(s)]) % 64)
  {
    var i := env.hash([Key(key), Group(env.group(s.ip)), Group(env.group(src))]) % 64;
    assert NewBucket(env, key, s, src) == env.hash([Key(key), Group(env.group(src)), Number(i)]) % 1024;
  }

  // ---------------------------------------------------------------- taking a slot

  /** The slot an announcement by `src` points to. */
  function Target(env: Env, key: nat, s: Service, src: NetAddr): Slot {
    NewSlot(env, key, s, NewBucket(env, key, s, src))
  }

  /** An entry takes a slot that is free, or that of an entry not worth keeping, or, if it has no other, that of
      one which does. */
  predicate Displaces(m: Manager, slot: Slot, id: int, refs: int, now: int) {
    slot in m.newTable ==>
      && m.newTable[slot] != id && m.newTable[slot] in m.mapInfo
      && var there := m.mapInfo[m.newTable[slot]];
         IsTerrible(there, now) || (there.nRefCount > 1 && refs == 0)
  }

  /** Giving entry `id` one more slot, if it may have it. */
  lemma PlaceEffect(env: Env, m: Manager, id: int, src: NetAddr, now: int, limbo: set<int>)
    requires Placeable(env, m, id, limbo)
    ensures var m', refs := Place(env, m, id, src, now, limbo), m.mapInfo[id].nRefCount;
      var slot := Target(env, m.nKey, m.mapInfo[id].service, src);
      && Bystanders(m, m', {}) && m'.triedTable == m.triedTable
      && (Displaces(m, slot, id, refs, now) ==>
            && m'.newTable == m.newTable[slot := id]
            && id in m'.mapInfo && m'.mapInfo[id].nRefCount == refs + 1)
      && (!Displaces(m, slot, id, refs, now) ==>
            && m'.newTable == m.newTable
            && (id in m'.mapInfo <==> refs > 0) && (refs > 0 ==> m' == m))
  {
    var slot := Target(env, m.nKey, m.mapInfo[id].service, src);
    RefsNatural(env, m, id, limbo);
    hide Core, ClearNew, Clearable, TriedDrift, NewDrift, IsTerrible;
    PlaceableOccupant(env, m, id, limbo, slot);
    HeldHasRefs(env, m, id, limbo, slot);
    if slot in m.newTable && m.newTable[slot] == id {
    } else if MayTake(m, slot, id, now) {
      PlaceTakes(env, m, id, limbo, slot, ClearNew(m, slot));
      PlaceClears(env, m, id, limbo, slot);
    } else if m.mapInfo[id].nRefCount == 0 {
      DeleteKeeps(env, m, id, limbo);
      DeleteBystanders(m, id);
    }
  }

  lemma RefsNatural(env: Env, m: Manager, id: int, limbo: set<int>)
    requires Core(env, m, limbo) && id in m.mapInfo
    ensures m.mapInfo[id].nRefCount >= 0
  {
  }

  lemma HeldHasRefs(env: Env, m: Manager, id: int, limbo: set<int>, slot: Slot)
    requires Placeable(env, m, id, limbo)
    ensures slot in m.newTable && m.newTable[slot] == id ==> m.mapInfo[id].nRefCount > 0
  {
    hide Indexed, Shuffled, TriedPlaced, NewPlaced, Anchored, Timed;
    if slot in m.newTable && m.newTable[slot] == id { assert slot in SlotsOf(m.newTable, id); }
  }

  // ---------------------------------------------------------------- an address not known before

  /** An unknown address is entered under the next id, in the slot it points to, if it may have that; otherwise
      nothing is kept of it.  Whoever was there loses that slot, and everyone else keeps every slot. */
  lemma AddUnknownEffect(env: Env, m: Manager, a: Address, src: NetAddr, penalty: int,
                         now: int, later: int, draw: nat)
    requires Inv(env, m) && env.routable(a.service.ip) && a.service.ip !in m.mapAddr
    ensures var m', id := Add(env, m, a, src, penalty, now, later, draw).0, m.nIdCount;
      var slot, fine := Target(env, m.nKey, a.service, src), if a.service.ip == src then 0 else penalty;
      && m'.triedTable == m.triedTable && m'.nIdCount == id + 1
      && (forall j :: j in m'.mapInfo && j != id ==> j in m.mapInfo && SameRecord(m.mapInfo[j], m'.mapInfo[j]))
      && (Displaces(m, slot, id, 0, later) ==>
            && m'.newTable == m.newTable[slot := id] && id in m'.mapInfo
            && SameRecord(m'.mapInfo[id],
                          Info(a.service, a.flags, Max(0, a.nTime - fine) % UINT32_RANGE, src,
                               0, 0, 0, 0, 1, false, 0)))
      && (!Displaces(m, slot, id, 0, later) ==> m'.newTable == m.newTable && id !in m'.mapInfo)
  {
    hide Core, TriedDrift, NewDrift, Place, IsTerrible, NewSlot, NewBucket;
    var fine := if a.service.ip == src then 0 else penalty;
    WithEntryPlaceable(env, m, a, src, fine);
    var m1 := WithEntry(m, a, src, fine);
    var id, slot := m.nIdCount, Target(env, m.nKey, a.service, src);
    FreshId(env, m);
    SameOccupant(m, m1, slot, id, later);
    PlaceEffect(env, m1, id, src, later, {id});
    Bystanding(m1, Place(env, m1, id, src, later, {id}), id);
  }

  lemma FreshId(env: Env, m: Manager)
    requires Inv(env, m)
    ensures m.nIdCount !in m.mapInfo
    ensures forall slot :: slot in m.newTable ==> m.newTable[slot] in m.mapInfo
  {
  }

  lemma SameOccupant(m: Manager, m1: Manager, slot: Slot, id: int, now: int)
    requires id !in m.mapInfo && m1.newTable == m.newTable
    requires forall s :: s in m.newTable ==> m.newTable[s] in m.mapInfo
    requires m1.mapInfo.Keys == m.mapInfo.Keys + {id} && forall j :: j in m.mapInfo ==> m1.mapInfo[j] == m.mapInfo[j]
    ensures Displaces(m, slot, id, 0, now) <==> Displaces(m1, slot, id, 0, now)
  {
    hide IsTerrible;
  }

  lemma Bystanding(m: Manager, m': Manager, id: int)
    requires Bystanders(m, m', {})
    ensures m'.nIdCount == m.nIdCount
    ensures forall j :: j in m'.mapInfo ==> j in m.mapInfo && SameRecord(m.mapInfo[j], m'.mapInfo[j])
  {
  }

  // ---------------------------------------------------------------- an address known already

  /** What a repeated announcement leaves in the record: services are added; the time is moved to the announced
      one, less the penalty, if that is an hour later than known, or a day if it is not recent, beyond the
      penalty. */
  lemma RefreshedIs(info: Info, a: Address, fine: int, now: int)
    ensures var r, wait := Refreshed(info, a, fine, now), if now < a.nTime + 86_400 then HOUR else 86_400;
      && SameRecord(r, info.(flags := r.flags, nTime := r.nTime))
      && r.nRefCount == info.nRefCount && r.fInTried == info.fInTried && r.nRandomPos == info.nRandomPos
      && (forall f :: f in r.flags <==> f in info.flags || f in a.flags)
      && r.nTime == if a.nTime != 0 && (info.nTime == 0 || info.nTime + wait + fine < a.nTime)
                    then Max(0, a.nTime - fine) % UINT32_RANGE else info.nTime
  {
  }

  lemma {:induction false} FactorIs(n: nat)
    ensures Factor(n) == Pow2(n)
  {
    if n > 0 { FactorIs(n - 1); }
  }

  /** Another slot is looked for only if the announcement is newer than what is known, the entry is not tried and
      has fewer than eight slots, and then with a chance of one in two to the number of slots it has. */
  lemma WantsIff(info: Info, a: Address, draw: nat)
    requires info.nRefCount >= 0
    ensures WantsReference(info, a, draw) <==>
      && a.nTime != 0 && (info.nTime == 0 || info.nTime < a.nTime)
      && !info.fInTried && info.nRefCount != 8 && draw % Pow2(info.nRefCount) == 0
  {
    hide Factor, Pow2;
    FactorIs(info.nRefCount);
  }

  /** A known address keeps its id; its record is refreshed and no other changes; it gains the slot the announcement
      points to exactly if it wants another and may have that one, and no one else gains any. */
  lemma AddKnownEffect(env: Env, m: Manager, a: Address, src: NetAddr, penalty: int, now: int, later: int, draw: nat)
    requires Inv(env, m) && env.routable(a.service.ip) && a.service.ip in m.mapAddr
    ensures m.mapAddr[a.service.ip] in m.mapInfo
    ensures var m', id := Add(env, m, a, src, penalty, now, later, draw).0, m.mapAddr[a.service.ip];
      var r := Refreshed(m.mapInfo[id], a, if a.service.ip == src then 0 else penalty, now);
      var slot := Target(env, m.nKey, m.mapInfo[id].service, src);
      && id in m'.mapInfo && SameRecord(r, m'.mapInfo[id])
      && (forall j :: j in m'.mapInfo && j != id ==> j in m.mapInfo && SameRecord(m.mapInfo[j], m'.mapInfo[j]))
      && m'.newTable == if WantsReference(r, a, draw) && Displaces(m, slot, id, r.nRefCount, later)
                        then m.newTable[slot := id] else m.newTable
  {
    hide Core, TriedDrift, NewDrift, Place, IsTerrible, NewSlot, NewBucket, WantsReference;
    OwnId(env, m, a.service.ip);
    var id := m.mapAddr[a.service.ip];
    var fine := if a.service.ip == src then 0 else penalty;
    var r := Refreshed(m.mapInfo[id], a, fine, now);
    RefreshedPlaceable(env, m, id, a, fine, now, draw);
    var m1 := Touch(m, id, r);
    var slot := Target(env, m.nKey, m.mapInfo[id].service, src);
    StillOccupied(m, m1, slot, id, r.nRefCount, later);
    if WantsReference(r, a, draw) {
      PlaceEffect(env, m1, id, src, later, {});
      Bystanding(m1, Place(env, m1, id, src, later, {}), id);
    }
  }

  lemma OwnId(env: Env, m: Manager, ip: NetAddr)
    requires Inv(env, m) && ip in m.mapAddr
    ensures m.mapAddr[ip] in m.mapInfo
    ensures m.mapInfo[m.mapAddr[ip]].fInTried || m.mapInfo[m.mapAddr[ip]].nRefCount > 0
    ensures forall slot :: slot in m.newTable ==> m.newTable[slot] in m.mapInfo
  {
    hide Shuffled, TriedPlaced, Referenced, Timed, TriedDrift, NewDrift;
    var id := m.mapAddr[ip];
    assert id in m.mapInfo && id !in {};
  }

  lemma StillOccupied(m: Manager, m1: Manager, slot: Slot, id: int, refs: int, now: int)
    requires id in m.mapInfo && m1.newTable == m.newTable && m1.mapInfo.Keys == m.mapInfo.Keys
    requires forall j :: j in m.mapInfo && j != id ==> m1.mapInfo[j] == m.mapInfo[j]
    ensures Displaces(m, slot, id, refs, now) <==> Displaces(m1, slot, id, refs, now)
  {
    hide IsTerrible;
  }
}
