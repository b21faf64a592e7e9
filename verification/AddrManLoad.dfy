/** Loading any stream: exactly when the manager that results is consistent, whatever the version and
    the bucket count of the stream. */
module AddrManLoad {
  import opened Arithmetic
  import opened AddrManModel
  import opened AddrManOps
  import opened AddrManCalls
  import opened AddrManDisk

  // ---------------------------------------------------------------- vRandom while loading

  /** Ids are handed out below `next`, and vRandom lists those handed out. */
  predicate Dealt(m: Manager, next: int) {
    Shuffled(m.mapInfo, m.vRandom) && forall id :: id in m.mapInfo ==> id < next
  }

  lemma EnrolDeals(m: Manager, id: int, d: DiskInfo, tried: bool)
    requires Dealt(m, id)
    ensures Dealt(Enrol(m, id, d, tried), id + 1)
  {
    CreateShuffles(m.mapInfo, m.vRandom, id, FromDisk(d, |m.vRandom|, tried));
  }

  lemma SetRefDeals(m: Manager, id: int, refs: int, t: Table, next: int)
    requires Dealt(m, next) && id in m.mapInfo
    ensures Dealt(m.(newTable := t, mapInfo := SetRef(m, id, refs)), next)
  {
    assert SetRef(m, id, refs).Keys == m.mapInfo.Keys;
    assert |SetRef(m, id, refs)| == |SetRef(m, id, refs).Keys| && |m.mapInfo| == |m.mapInfo.Keys|;
  }

  lemma ToEndDeals(m: Manager, id: int)
    requires Deletable(m, id)
    ensures Shuffled(ToEnd(m, id).mapInfo, ToEnd(m, id).vRandom)
    ensures ToEnd(m, id).mapInfo.Keys == m.mapInfo.Keys
  {
    hide Shuffled;
    EndPlace(m, id);
    var i, j := m.mapInfo[id].nRandomPos, |m.vRandom| - 1;
    if i != j { SwapPlacesShuffles(m.mapInfo, m.vRandom, i, j); }
  }

  lemma DeleteDeals(m: Manager, id: int, next: int)
    requires Deletable(m, id) && Dealt(m, next)
    ensures Dealt(Delete(m, id), next)
  {
    hide Shuffled, ToEnd;
    EndPlace(m, id);
    ToEndDeals(m, id);
    DropShuffles(ToEnd(m, id).mapInfo, ToEnd(m, id).vRandom, id);
  }

  // ---------------------------------------------------------------- what reading keeps

  /** Both tables are right, and so are the reference counts. */
  predicate Filed(env: Env, m: Manager) {
    && TriedPlaced(env, m.nKey, m.mapInfo, m.triedTable)
    && NewPlaced(env, m.nKey, m.mapInfo, m.newTable)
    && Referenced(m.mapInfo, m.newTable)
  }

  /** Every entry's address leads to the last entry with that address. */
  predicate Addressed(infos: Infos, addrs: map<NetAddr, int>) {
    && (forall a :: a in addrs ==> addrs[a] in infos && infos[addrs[a]].service.ip == a)
    && forall id :: id in infos ==> infos[id].service.ip in addrs && addrs[infos[id].service.ip] >= id
  }

  predicate Numbered(infos: Infos, next: int) {
    forall id :: id in infos ==> 0 <= id < next
  }

  predicate Reading(env: Env, m: Manager, next: int) {
    && next >= 0 && Dealt(m, next) && Filed(env, m) && Addressed(m.mapInfo, m.mapAddr) && Numbered(m.mapInfo, next)
    && NeverTriedAt(m.mapInfo)
  }

  /** Entries read have not been tried since. */
  predicate NeverTriedAt(infos: Infos) {
    forall id :: id in infos ==> infos[id].nLastTry == 0
  }

  lemma EnrolFiles(env: Env, m: Manager, id: int, d: DiskInfo)
    requires Filed(env, m) && id !in m.mapInfo
    ensures Filed(env, Enrol(m, id, d, false))
  {
    hide TriedSlot, NewSlot;
    assert SlotsOf(m.newTable, id) == {};
  }

  lemma EnrolTriedFiles(env: Env, m: Manager, id: int, d: DiskInfo)
    requires Filed(env, m) && id !in m.mapInfo && TriedSlot(env, m.nKey, d.service) !in m.triedTable
    ensures Filed(env, Enrol(m, id, d, true).(triedTable := m.triedTable[TriedSlot(env, m.nKey, d.service) := id]))
  {
    hide TriedSlot, NewSlot;
    assert SlotsOf(m.newTable, id) == {};
  }

  lemma EnrolAddresses(m: Manager, id: int, d: DiskInfo, tried: bool)
    requires Addressed(m.mapInfo, m.mapAddr) && Numbered(m.mapInfo, id) && id >= 0
    ensures var m' := Enrol(m, id, d, tried); Addressed(m'.mapInfo, m'.mapAddr) && Numbered(m'.mapInfo, id + 1)
  {
  }

  lemma ReferenceFiles(env: Env, m: Manager, s: Slot, id: int)
    requires Filed(env, m) && id in m.mapInfo && !m.mapInfo[id].fInTried && s !in m.newTable
    requires 0 <= s.bucket < NEW_BUCKET_COUNT && s == NewSlot(env, m.nKey, m.mapInfo[id].service, s.bucket)
    requires m.mapInfo[id].nRefCount < NEW_BUCKETS_PER_ADDRESS
    ensures Filed(env, Reference(m, s, id))
  {
    hide TriedPlaced, NewPlaced, Referenced, TriedSlot, NewSlot;
    var info := m.mapInfo[id].(nRefCount := m.mapInfo[id].nRefCount + 1);
    ReferenceRefs(m.mapInfo, m.newTable, s, id, info);
    SetKeepsPlaces(env, m.nKey, m.mapInfo, m.triedTable, m.newTable, id, info);
    NewPlacedWith(env, m.nKey, m.mapInfo[id := info], m.newTable, s, id);
  }

  lemma ReferenceReads(env: Env, m: Manager, s: Slot, id: int, next: int)
    requires Reading(env, m, next) && id in m.mapInfo && !m.mapInfo[id].fInTried && s !in m.newTable
    requires 0 <= s.bucket < NEW_BUCKET_COUNT && s == NewSlot(env, m.nKey, m.mapInfo[id].service, s.bucket)
    requires m.mapInfo[id].nRefCount < NEW_BUCKETS_PER_ADDRESS
    ensures Reading(env, Reference(m, s, id), next)
  {
    hide Dealt, Filed, NewSlot;
    SetRefDeals(m, id, m.mapInfo[id].nRefCount + 1, m.newTable[s := id], next);
    ReferenceFiles(env, m, s, id);
  }

  lemma NewReads(env: Env, m: Manager, id: int, d: DiskInfo, usable: bool)
    requires Reading(env, m, id)
    ensures Reading(env, LoadNewOne(env, m, id, d, usable), id + 1)
  {
    hide Dealt, Filed, Addressed, Numbered, NewSlot, NewBucket;
    var m1 := Enrol(m, id, d, false);
    Unnumbered(m.mapInfo, id);
    EnrolDeals(m, id, d, false);
    EnrolFiles(env, m, id, d);
    EnrolAddresses(m, id, d, false);
    assert Reading(env, m1, id + 1);
    var home := HomeSlot(env, m.nKey, m1.mapInfo[id]);
    if !usable && home !in m1.newTable {
      HomeFits(env, m.nKey, m1.mapInfo[id]);
      ReferenceReads(env, m1, home, id, id + 1);
    }
  }

  lemma Unnumbered(infos: Infos, id: int)
    requires Numbered(infos, id)
    ensures id !in infos
  {
  }

  lemma HomeFits(env: Env, key: nat, info: Info)
    ensures var s := HomeSlot(env, key, info);
      0 <= s.bucket < NEW_BUCKET_COUNT && s == NewSlot(env, key, info.service, s.bucket)
  {
  }

  lemma TriedReads(env: Env, m: Manager, d: DiskInfo)
    requires Reading(env, m, m.nIdCount)
    ensures Reading(env, LoadTriedOne(env, m, d), LoadTriedOne(env, m, d).nIdCount)
  {
    hide Shuffled, Filed, Addressed, Numbered, TriedSlot;
    var s := TriedSlot(env, m.nKey, d.service);
    Unnumbered(m.mapInfo, m.nIdCount);
    if s in m.triedTable {
      FiledAlike(env, m, LoadTriedOne(env, m, d), m.nIdCount);
    } else {
      EnrolDeals(m, m.nIdCount, d, true);
      EnrolTriedFiles(env, m, m.nIdCount, d);
      EnrolAddresses(m, m.nIdCount, d, true);
      var m1 := Enrol(m, m.nIdCount, d, true).(triedTable := m.triedTable[s := m.nIdCount]);
      FiledAlike(env, m1, LoadTriedOne(env, m, d), m.nIdCount + 1);
    }
  }

  /** The counters do not matter here. */
  lemma FiledAlike(env: Env, m: Manager, m': Manager, next: int)
    requires m' == m.(nTried := m'.nTried, nNew := m'.nNew, nIdCount := m'.nIdCount)
    ensures Filed(env, m) ==> Filed(env, m')
    ensures Dealt(m, next) ==> Dealt(m', next)
  {
    hide TriedPlaced, NewPlaced, Referenced, Shuffled;
  }

  lemma IndexReads(env: Env, m: Manager, b: int, index: int, usable: bool, next: int)
    requires Reading(env, m, next) && (usable ==> 0 <= b < NEW_BUCKET_COUNT)
    requires forall id :: id in m.mapInfo && id < m.nNew ==> !m.mapInfo[id].fInTried
    ensures Reading(env, LoadIndex(env, m, b, index, usable), next)
  {
    hide Reading, Position;
    if usable && 0 <= index < m.nNew && index in m.mapInfo {
      var s := NewSlot(env, m.nKey, m.mapInfo[index].service, b);
      if s !in m.newTable && m.mapInfo[index].nRefCount < NEW_BUCKETS_PER_ADDRESS {
        ReferenceReads(env, m, s, index, next);
      }
    }
  }

  // ---------------------------------------------------------------- counting what is read

  lemma NewDrifts(env: Env, m: Manager, id: int, d: DiskInfo, usable: bool)
    requires id !in m.mapInfo
    ensures var m' := LoadNewOne(env, m, id, d, usable);
      TriedDrift(m') == TriedDrift(m) && NewDrift(m') == NewDrift(m) + 1 && m'.nNew == m.nNew && m'.nKey == m.nKey
  {
    hide TriedIds, NewSlot, NewBucket;
    var m1 := Enrol(m, id, d, false);
    CountInsert(m.mapInfo, id, m1.mapInfo[id]);
    CountInsert(m1.mapInfo, id, m1.mapInfo[id].(nRefCount := 1));
  }

  lemma TriedDrifts(env: Env, m: Manager, d: DiskInfo)
    requires m.nIdCount !in m.mapInfo
    ensures var m' := LoadTriedOne(env, m, d);
      TriedDrift(m') == TriedDrift(m) + 1 && NewDrift(m') == NewDrift(m) && m'.nNew == m.nNew && m'.nKey == m.nKey
  {
    hide TriedIds, TriedSlot;
    CountInsert(m.mapInfo, m.nIdCount, FromDisk(d, |m.vRandom|, true));
  }

  lemma IndexDrifts(env: Env, m: Manager, b: int, index: int, usable: bool)
    ensures SameDrift(m, LoadIndex(env, m, b, index, usable), 0)
  {
    hide TriedIds, NewSlot;
    if index in m.mapInfo {
      CountInsert(m.mapInfo, index, m.mapInfo[index].(nRefCount := m.mapInfo[index].nRefCount + 1));
    }
  }

  // ---------------------------------------------------------------- what was read

  /** An entry is what a record says. */
  predicate From(info: Info, d: DiskInfo, tried: bool) {
    info.service == d.service && info.nLastSuccess == d.nLastSuccess && info.fInTried == tried
  }

  ghost predicate NewRead(m: Manager, ds: seq<DiskInfo>) {
    && (forall id :: id in m.mapInfo <==> 0 <= id < |ds|)
    && forall id :: 0 <= id < |ds| ==> From(m.mapInfo[id], ds[id], false)
  }

  lemma {:induction false} NewsRead(env: Env, m: Manager, ds: seq<DiskInfo>, usable: bool)
    requires m.mapInfo == map[] && Reading(env, m, 0)
    ensures var m' := LoadNew(env, m, ds, usable);
      && Reading(env, m', |ds|) && NewRead(m', ds) && m'.nNew == m.nNew && m'.nTried == m.nTried && m'.nKey == m.nKey
      && TriedDrift(m') == TriedDrift(m) && NewDrift(m') == NewDrift(m) + |ds|
      && m'.collisions == m.collisions && m'.nLastGood == m.nLastGood
    decreases |ds|
  {
    hide Reading, TriedDrift, NewDrift, NewSlot, NewBucket;
    if ds != [] {
      var n := |ds| - 1;
      NewsRead(env, m, ds[..n], usable);
      var m1 := LoadNew(env, m, ds[..n], usable);
      NewReads(env, m1, n, ds[n], usable);
      NewDrifts(env, m1, n, ds[n], usable);
      OneNewRead(env, m1, ds, usable);
    }
  }

  lemma OneNewRead(env: Env, m: Manager, ds: seq<DiskInfo>, usable: bool)
    requires ds != [] && NewRead(m, ds[..|ds| - 1])
    ensures NewRead(LoadNewOne(env, m, |ds| - 1, ds[|ds| - 1], usable), ds)
  {
    hide NewSlot, NewBucket;
    var n := |ds| - 1;
    assert forall id :: 0 <= id < n ==> ds[..n][id] == ds[id];
  }

  /** The tried entries enrolled are those of `from`, in order; the others were lost. */
  ghost predicate TriedRead(m: Manager, news: seq<DiskInfo>, trieds: seq<DiskInfo>, from: seq<nat>) {
    && (forall i :: 0 <= i < |from| ==> from[i] < |trieds|)
    && (forall i, j :: 0 <= i < j < |from| ==> from[i] < from[j])
    && m.nIdCount == |news| + |from| && (forall id :: id in m.mapInfo <==> 0 <= id < m.nIdCount)
    && (forall id :: 0 <= id < |news| ==> From(m.mapInfo[id], news[id], false))
    && forall i :: 0 <= i < |from| ==> From(m.mapInfo[|news| + i], trieds[from[i]], true)
  }

  lemma {:induction false} TriedsRead(env: Env, m: Manager, news: seq<DiskInfo>, ds: seq<DiskInfo>)
    returns (from: seq<nat>)
    requires NewRead(m, news) && m.nIdCount == |news| && Reading(env, m, |news|)
    ensures var m' := LoadTried(env, m, ds);
      && Reading(env, m', m'.nIdCount) && TriedRead(m', news, ds, from) && m'.nNew == m.nNew && m'.nKey == m.nKey
      && TriedDrift(m') == TriedDrift(m) + |ds| && NewDrift(m') == NewDrift(m)
    decreases |ds|
  {
    hide Reading, TriedDrift, NewDrift, TriedSlot;
    if ds == [] {
      from := [];
    } else {
      var n := |ds| - 1;
      var front := TriedsRead(env, m, news, ds[..n]);
      var m1 := LoadTried(env, m, ds[..n]);
      TriedReads(env, m1, ds[n]);
      TriedDrifts(env, m1, ds[n]);
      from := OneTriedRead(env, m1, news, ds, front);
    }
  }

  lemma OneTriedRead(env: Env, m: Manager, news: seq<DiskInfo>, ds: seq<DiskInfo>, front: seq<nat>)
    returns (from: seq<nat>)
    requires ds != [] && TriedRead(m, news, ds[..|ds| - 1], front)
    ensures TriedRead(LoadTriedOne(env, m, ds[|ds| - 1]), news, ds, from)
  {
    hide TriedSlot;
    var n := |ds| - 1;
    var m' := LoadTriedOne(env, m, ds[n]);
    assert forall i :: 0 <= i < |front| ==> ds[..n][front[i]] == ds[front[i]];
    if TriedSlot(env, m.nKey, ds[n].service) in m.triedTable {
      from := front;
    } else {
      from := front + [n];
      assert m'.mapInfo[|news| + |front|] == FromDisk(ds[n], |m.vRandom|, true);
    }
  }

  // ---------------------------------------------------------------- references

  /** The same entries but for their references. */
  predicate Alike(m: Manager, m': Manager) {
    && m'.mapInfo.Keys == m.mapInfo.Keys && m'.nIdCount == m.nIdCount && m'.nNew == m.nNew && m'.nKey == m.nKey
    && forall id :: id in m.mapInfo ==>
         && m'.mapInfo[id].service == m.mapInfo[id].service && m'.mapInfo[id].nLastSuccess == m.mapInfo[id].nLastSuccess
         && m'.mapInfo[id].fInTried == m.mapInfo[id].fInTried
  }

  /** What comes before the tried entries is not tried. */
  predicate NewFirst(m: Manager) {
    forall id :: id in m.mapInfo && id < m.nNew ==> !m.mapInfo[id].fInTried
  }

  lemma IndexAlike(env: Env, m: Manager, b: int, index: int, usable: bool)
    ensures Alike(m, LoadIndex(env, m, b, index, usable))
  {
    hide NewSlot;
  }

  lemma {:induction false} BucketReads(env: Env, m: Manager, b: int, indices: seq<int>, usable: bool, next: int)
    requires Reading(env, m, next) && NewFirst(m) && (usable ==> 0 <= b < NEW_BUCKET_COUNT)
    ensures var m' := LoadBucket(env, m, b, indices, usable);
      Reading(env, m', next) && Alike(m, m') && SameDrift(m, m', 0)
    decreases |indices|
  {
    hide Reading, TriedDrift, NewDrift, LoadIndex;
    if indices != [] {
      var n := |indices| - 1;
      BucketReads(env, m, b, indices[..n], usable, next);
      var m1 := LoadBucket(env, m, b, indices[..n], usable);
      IndexReads(env, m1, b, indices[n], usable, next);
      IndexAlike(env, m1, b, indices[n], usable);
      IndexDrifts(env, m1, b, indices[n], usable);
    }
  }

  lemma {:induction false} AllBucketsRead(env: Env, m: Manager, buckets: seq<seq<int>>, usable: bool, next: int)
    requires Reading(env, m, next) && NewFirst(m) && (usable ==> |buckets| <= NEW_BUCKET_COUNT)
    ensures var m' := LoadBuckets(env, m, buckets, usable);
      Reading(env, m', next) && Alike(m, m') && SameDrift(m, m', 0)
    decreases |buckets|
  {
    hide Reading, TriedDrift, NewDrift, LoadBucket;
    if buckets != [] {
      var n := |buckets| - 1;
      AllBucketsRead(env, m, buckets[..n], usable, next);
      var m1 := LoadBuckets(env, m, buckets[..n], usable);
      BucketReads(env, m1, n, buckets[n], usable, next);
    }
  }

  // ---------------------------------------------------------------- pruning

  predicate Kept(info: Info) { info.fInTried || info.nRefCount != 0 }

  /** An entry with this address and an id below `k` is not kept. */
  predicate Dropped(infos: Infos, k: int, a: NetAddr) {
    exists id :: id in infos && id < k && !Kept(infos[id]) && infos[id].service.ip == a
  }

  /** The entries below `k` that are not kept are gone, and their addresses with them. */
  ghost predicate PrunedTo(m: Manager, m': Manager, k: int) {
    && m'.nKey == m.nKey && m'.nIdCount == m.nIdCount && m'.newTable == m.newTable && m'.triedTable == m.triedTable
    && Shuffled(m'.mapInfo, m'.vRandom)
    && (forall id :: id in m'.mapInfo <==> id in m.mapInfo && (id >= k || Kept(m.mapInfo[id])))
    && (forall id :: id in m'.mapInfo ==> SameButPlace(m.mapInfo[id], m'.mapInfo[id]))
    && (forall a :: a in m'.mapAddr <==> a in m.mapAddr && !Dropped(m.mapInfo, k, a))
    && forall a :: a in m'.mapAddr ==> m'.mapAddr[a] == m.mapAddr[a]
  }

  lemma DeleteIs(m: Manager, id: int)
    requires Deletable(m, id)
    ensures var m' := Delete(m, id);
      && m' == m.(mapInfo := m'.mapInfo, mapAddr := m.mapAddr - {m.mapInfo[id].service.ip}, vRandom := m'.vRandom,
                  nNew := m.nNew - 1)
      && m'.mapInfo.Keys == m.mapInfo.Keys - {id} && KeepsOthers(m.mapInfo, m'.mapInfo, {id})
      && Shuffled(m'.mapInfo, m'.vRandom) && SameDrift(m, m', 0)
  {
    hide Shuffled, TriedIds;
    EndPlace(m, id);
    var i, j := m.mapInfo[id].nRandomPos, |m.vRandom| - 1;
    if i != j { SwapPlacesShuffles(m.mapInfo, m.vRandom, i, j); }
    var m1 := ToEnd(m, id);
    assert Relocated(m, m1) && SameButPlace(m.mapInfo[id], m1.mapInfo[id]);
    RelocatedCounts(m, m1);
    DropShuffles(m1.mapInfo, m1.vRandom, id);
    CountRemove(m1.mapInfo, id);
  }

  lemma {:induction false} PruneIs(m: Manager, k: int)
    requires Shuffled(m.mapInfo, m.vRandom) && forall id :: id in m.mapInfo ==> id >= 0
    ensures PrunedTo(m, Prune(m, k), k) && SameDrift(m, Prune(m, k), 0)
    decreases if k <= 0 then 0 else k
  {
    hide Shuffled, TriedDrift, NewDrift, Delete, PrunedTo, Deletable;
    if k <= 0 {
      NoneBelow(m, k);
    } else {
      PruneIs(m, k - 1);
      PruneStep(m, Prune(m, k - 1), k - 1);
    }
  }

  lemma NoneBelow(m: Manager, k: int)
    requires k <= 0 && Shuffled(m.mapInfo, m.vRandom) && forall id :: id in m.mapInfo ==> id >= 0
    ensures PrunedTo(m, m, k)
  {
    hide Shuffled;
  }

  lemma PruneStep(m: Manager, m1: Manager, id: int)
    requires PrunedTo(m, m1, id)
    ensures var m2 := if Deletable(m1, id) then Delete(m1, id) else m1;
      PrunedTo(m, m2, id + 1) && SameDrift(m1, m2, 0)
  {
    hide Shuffled, TriedDrift, NewDrift, Delete, Dropped;
    if Deletable(m1, id) {
      DeleteIs(m1, id);
      PruneOne(m, m1, Delete(m1, id), id);
    } else {
      PruneNone(m, m1, id);
    }
  }

  lemma PruneOne(m: Manager, m1: Manager, m2: Manager, id: int)
    requires PrunedTo(m, m1, id) && id in m1.mapInfo && !Kept(m1.mapInfo[id])
    requires m2 == m1.(mapInfo := m2.mapInfo, mapAddr := m1.mapAddr - {m1.mapInfo[id].service.ip},
                       vRandom := m2.vRandom, nNew := m1.nNew - 1)
    requires m2.mapInfo.Keys == m1.mapInfo.Keys - {id} && KeepsOthers(m1.mapInfo, m2.mapInfo, {id})
    requires Shuffled(m2.mapInfo, m2.vRandom)
    ensures PrunedTo(m, m2, id + 1)
  {
    hide Shuffled;
    assert SameButPlace(m.mapInfo[id], m1.mapInfo[id]);
    var ip := m.mapInfo[id].service.ip;
    forall a ensures Dropped(m.mapInfo, id + 1, a) <==> Dropped(m.mapInfo, id, a) || a == ip {
      DroppedNext(m.mapInfo, id, a);
    }
    forall j | j in m2.mapInfo ensures SameButPlace(m.mapInfo[j], m2.mapInfo[j]) {
      assert SameButPlace(m.mapInfo[j], m1.mapInfo[j]) && SameButPlace(m1.mapInfo[j], m2.mapInfo[j]);
    }
  }

  lemma DroppedNext(infos: Infos, id: int, a: NetAddr)
    ensures Dropped(infos, id + 1, a) <==>
      Dropped(infos, id, a) || (id in infos && !Kept(infos[id]) && infos[id].service.ip == a)
  {
    if Dropped(infos, id, a) {
      var j :| j in infos && j < id && !Kept(infos[j]) && infos[j].service.ip == a;
      assert j < id + 1;
    }
  }

  lemma PruneNone(m: Manager, m1: Manager, id: int)
    requires PrunedTo(m, m1, id) && !(id in m1.mapInfo && !Kept(m1.mapInfo[id]))
    ensures PrunedTo(m, m1, id + 1)
  {
    hide Shuffled;
    if id in m.mapInfo && id in m1.mapInfo { assert SameButPlace(m.mapInfo[id], m1.mapInfo[id]); }
    forall a ensures Dropped(m.mapInfo, id + 1, a) <==> Dropped(m.mapInfo, id, a) {
      DroppedNext(m.mapInfo, id, a);
    }
  }

  // ---------------------------------------------------------------- which streams load consistently

  /** Entry `id` shares its address with no other. */
  predicate Alone(infos: Infos, id: int)
    requires id in infos
  {
    forall j :: j in infos && j != id ==> infos[j].service.ip != infos[id].service.ip
  }

  predicate Fine(info: Info) {
    info.nLastSuccess >= 0 && (info.fInTried ==> info.nLastSuccess > 0)
  }

  /** Every entry that will be kept has its address to itself and a possible time of success. */
  predicate Sound(infos: Infos) {
    forall id :: id in infos && Kept(infos[id]) ==> Fine(infos[id]) && Alone(infos, id)
  }

  lemma PrunedFiles(env: Env, m: Manager, m': Manager)
    requires Filed(env, m) && PrunedTo(m, m', m.nIdCount) && Numbered(m.mapInfo, m.nIdCount)
    ensures Filed(env, m') && Anchored(m'.mapInfo, {})
  {
    hide TriedSlot, NewSlot, Shuffled, Dropped;
    forall s | s in m.newTable ensures m.newTable[s] in m'.mapInfo {
      assert s in SlotsOf(m.newTable, m.newTable[s]);
    }
    forall s | s in m.triedTable ensures m.triedTable[s] in m'.mapInfo {
      var id := m.triedTable[s];
      assert id in m.mapInfo && Kept(m.mapInfo[id]);
      assert id in m'.mapInfo <==> id in m.mapInfo && (id >= m.nIdCount || Kept(m.mapInfo[id]));
    }
    forall id | id in m'.mapInfo
      ensures id in m.mapInfo && SameButPlace(m.mapInfo[id], m'.mapInfo[id])
      ensures m'.mapInfo[id].service == m.mapInfo[id].service && m'.mapInfo[id].fInTried == m.mapInfo[id].fInTried
    {
    }
    assert TriedPlaced(env, m'.nKey, m'.mapInfo, m'.triedTable);
    assert NewPlaced(env, m'.nKey, m'.mapInfo, m'.newTable);
    assert Referenced(m'.mapInfo, m'.newTable);
    assert Anchored(m'.mapInfo, {});
  }

  lemma PrunedIndex(m: Manager, m': Manager)
    requires PrunedTo(m, m', m.nIdCount) && Numbered(m.mapInfo, m.nIdCount) && m.nIdCount >= 0
    requires Addressed(m.mapInfo, m.mapAddr)
    ensures Indexed(m'.mapInfo, m'.mapAddr, m'.nIdCount) <==>
      forall id :: id in m.mapInfo && Kept(m.mapInfo[id]) ==> Alone(m.mapInfo, id)
  {
    hide Shuffled;
    assert forall id :: id in m'.mapInfo ==> m'.mapInfo[id].service == m.mapInfo[id].service by {
      forall id | id in m'.mapInfo ensures m'.mapInfo[id].service == m.mapInfo[id].service {
        assert SameButPlace(m.mapInfo[id], m'.mapInfo[id]);
      }
    }
    if Indexed(m'.mapInfo, m'.mapAddr, m'.nIdCount) {
      forall id | id in m.mapInfo && Kept(m.mapInfo[id]) ensures Alone(m.mapInfo, id) {
        assert id in m'.mapInfo;
      }
    }
    if forall id :: id in m.mapInfo && Kept(m.mapInfo[id]) ==> Alone(m.mapInfo, id) {
      assert Indexed(m'.mapInfo, m'.mapAddr, m'.nIdCount);
    }
  }

  lemma PrunedTimes(m: Manager, m': Manager)
    requires PrunedTo(m, m', m.nIdCount) && Numbered(m.mapInfo, m.nIdCount) && NeverTriedAt(m.mapInfo)
    ensures Timed(m'.mapInfo) <==> forall id :: id in m.mapInfo && Kept(m.mapInfo[id]) ==> Fine(m.mapInfo[id])
  {
    hide Shuffled, Dropped;
    forall id | id in m'.mapInfo ensures SameButPlace(m.mapInfo[id], m'.mapInfo[id]) {
    }
    forall id | id in m.mapInfo && Kept(m.mapInfo[id]) ensures id in m'.mapInfo {
    }
  }

  lemma PrunedCore(env: Env, m: Manager, m': Manager)
    requires Reading(env, m, m.nIdCount) && PrunedTo(m, m', m.nIdCount)
    ensures Core(env, m', {}) <==> Sound(m.mapInfo)
  {
    PrunedFiles(env, m, m');
    PrunedIndex(m, m');
    PrunedTimes(m, m');
    hide TriedPlaced, NewPlaced, Referenced, Anchored, Indexed, Timed, Kept, Fine, Alone, Dropped;
    assert Shuffled(m'.mapInfo, m'.vRandom);
    hide Shuffled;
  }

  /** What has been read of a stream when the pruning starts. */
  function BeforePruning(env: Env, s: Stream, collisions: set<nat>): Manager
    requires Unserialize(env, s, collisions).Loaded?
  {
    LoadBuckets(env, LoadEntries(env, s, collisions), s.buckets[..Max(0, BucketsRead(s))], Usable(s))
  }

  /** The entries read, under consecutive ids: the new ones, then the tried ones that found their slot free. */
  lemma EntriesRead(env: Env, s: Stream, collisions: set<nat>) returns (from: seq<nat>)
    requires Unserialize(env, s, collisions).Loaded? && s.nNew >= 0
    ensures var m := LoadEntries(env, s, collisions);
      && Reading(env, m, m.nIdCount) && m.nNew == s.nNew
      && TriedRead(m, s.newInfos[..s.nNew], s.triedInfos[..Max(0, s.nTried)], from)
      && NewDrift(m) == 0 && TriedDrift(m) == Max(0, s.nTried) - s.nTried
  {
    hide Reading, LoadNew, LoadTried, NewDrift, TriedDrift, NewRead, TriedRead, Usable, FlipBit30;
    var m0 := Empty(s.key, collisions).(nNew := s.nNew, nTried := s.nTried);
    var news := s.newInfos[..s.nNew];
    EmptyReads(env, s.key, collisions, s.nNew, s.nTried);
    NewsRead(env, m0, news, Usable(s));
    var m1 := LoadNew(env, m0, news, Usable(s));
    Renumbered(env, m1, s.nNew, s.nNew);
    Recounted(m1, s.nNew, news);
    from := TriedsRead(env, m1.(nIdCount := s.nNew), news, s.triedInfos[..Max(0, s.nTried)]);
  }

  lemma EmptyReads(env: Env, key: nat, collisions: set<nat>, nNew: int, nTried: int)
    ensures var m := Empty(key, collisions).(nNew := nNew, nTried := nTried);
      Reading(env, m, 0) && m.mapInfo == map[] && NewDrift(m) == -nNew && TriedDrift(m) == -nTried
  {
    assert TriedIds(Empty(key, collisions).mapInfo) == {};
  }

  lemma Recounted(m: Manager, n: int, news: seq<DiskInfo>)
    ensures NewDrift(m.(nIdCount := n)) == NewDrift(m) && TriedDrift(m.(nIdCount := n)) == TriedDrift(m)
    ensures NewRead(m, news) ==> NewRead(m.(nIdCount := n), news)
  {
  }

  lemma Renumbered(env: Env, m: Manager, next: int, n: int)
    requires Reading(env, m, next)
    ensures Reading(env, m.(nIdCount := n), next)
  {
    FiledAlike(env, m, m.(nIdCount := n), next);
    hide Filed, Dealt;
  }

  lemma ReadFirst(m: Manager, news: seq<DiskInfo>, trieds: seq<DiskInfo>, from: seq<nat>)
    requires TriedRead(m, news, trieds, from) && m.nNew == |news|
    ensures NewFirst(m)
  {
  }

  lemma AlikeReads(m: Manager, m': Manager, news: seq<DiskInfo>, trieds: seq<DiskInfo>, from: seq<nat>)
    requires TriedRead(m, news, trieds, from) && Alike(m, m')
    ensures TriedRead(m', news, trieds, from)
  {
    assert forall id :: id in m'.mapInfo <==> id in m.mapInfo;
  }

  lemma StreamRead(env: Env, s: Stream, collisions: set<nat>) returns (from: seq<nat>)
    requires Unserialize(env, s, collisions).Loaded? && s.nNew >= 0
    ensures var m := BeforePruning(env, s, collisions);
      && Reading(env, m, m.nIdCount) && PrunedTo(m, Unserialize(env, s, collisions).m, m.nIdCount)
      && TriedRead(m, s.newInfos[..s.nNew], s.triedInfos[..Max(0, s.nTried)], from)
    ensures NewDrift(Unserialize(env, s, collisions).m) == 0
    ensures TriedDrift(Unserialize(env, s, collisions).m) == Max(0, s.nTried) - s.nTried
  {
    from := EntriesRead(env, s, collisions);
    var news, trieds := s.newInfos[..s.nNew], s.triedInfos[..Max(0, s.nTried)];
    var m := LoadEntries(env, s, collisions);
    ReadFirst(m, news, trieds, from);
    hide Reading, NewDrift, TriedDrift, LoadEntries, LoadBuckets, Prune, TriedRead, NewFirst, PrunedTo, Alike;
    AllBucketsRead(env, m, s.buckets[..Max(0, BucketsRead(s))], Usable(s), m.nIdCount);
    var m' := BeforePruning(env, s, collisions);
    AlikeReads(m, m', news, trieds, from);
    assert m'.nIdCount == m.nIdCount by { AlikeCounts(m, m'); }
    ReadingShuffled(env, m', m.nIdCount);
    PruneIs(m', m'.nIdCount);
  }

  lemma AlikeCounts(m: Manager, m': Manager)
    requires Alike(m, m')
    ensures m'.nIdCount == m.nIdCount
  {
  }

  lemma ReadingShuffled(env: Env, m: Manager, next: int)
    requires Reading(env, m, next)
    ensures Shuffled(m.mapInfo, m.vRandom) && forall id :: id in m.mapInfo ==> id >= 0
  {
  }

  // A negative number of new entries gives the tried ones negative ids and leaves nNew negative.

  predicate AllTried(m: Manager) {
    forall id :: id in m.mapInfo ==> id < m.nIdCount && m.mapInfo[id].fInTried
  }

  lemma {:induction false} TriedOnly(env: Env, m: Manager, ds: seq<DiskInfo>)
    requires AllTried(m)
    ensures var m' := LoadTried(env, m, ds); AllTried(m') && m'.nNew == m.nNew && NewDrift(m') == NewDrift(m)
    decreases |ds|
  {
    hide NewDrift, TriedDrift, TriedSlot;
    if ds != [] {
      var n := |ds| - 1;
      TriedOnly(env, m, ds[..n]);
      TriedDrifts(env, LoadTried(env, m, ds[..n]), ds[n]);
    }
  }

  lemma {:induction false} BucketIgnored(env: Env, m: Manager, b: int, indices: seq<int>, usable: bool)
    requires m.nNew < 0
    ensures LoadBucket(env, m, b, indices, usable) == m
    decreases |indices|
  {
    if indices != [] { BucketIgnored(env, m, b, indices[..|indices| - 1], usable); }
  }

  lemma {:induction false} BucketsIgnored(env: Env, m: Manager, buckets: seq<seq<int>>, usable: bool)
    requires m.nNew < 0
    ensures LoadBuckets(env, m, buckets, usable) == m
    decreases |buckets|
  {
    hide LoadBucket;
    if buckets != [] {
      var n := |buckets| - 1;
      BucketsIgnored(env, m, buckets[..n], usable);
      BucketIgnored(env, m, n, buckets[n], usable);
    }
  }

  lemma {:induction false} NothingPruned(m: Manager, k: int)
    requires AllTried(m)
    ensures Prune(m, k) == m
    decreases if k <= 0 then 0 else k
  {
    if k > 0 { NothingPruned(m, k - 1); }
  }

  lemma NegativeCount(env: Env, s: Stream, collisions: set<nat>)
    requires Unserialize(env, s, collisions).Loaded? && s.nNew < 0
    ensures !Inv(env, Unserialize(env, s, collisions).m)
  {
    var m := Empty(s.key, collisions).(nNew := s.nNew, nTried := s.nTried, nIdCount := s.nNew);
    assert s.newInfos[..Max(0, s.nNew)] == [];
    assert TriedIds(m.mapInfo) == {};
    TriedOnly(env, m, s.triedInfos[..Max(0, s.nTried)]);
    var m' := LoadEntries(env, s, collisions);
    BucketsIgnored(env, m', s.buckets[..Max(0, BucketsRead(s))], Usable(s));
    NothingPruned(m', m'.nIdCount);
  }

  /** Exactly when a stream that loads leaves a consistent manager: neither count is negative, and every
      entry that is kept has a possible time of success and shares its address with no other entry read. */
  lemma LoadsConsistentlyIff(env: Env, s: Stream, collisions: set<nat>)
    requires Unserialize(env, s, collisions).Loaded?
    ensures Inv(env, Unserialize(env, s, collisions).m) <==>
      s.nNew >= 0 && s.nTried >= 0 && Sound(BeforePruning(env, s, collisions).mapInfo)
  {
    hide NewDrift, TriedDrift, Unserialize, BeforePruning, Core, Sound;
    if s.nNew < 0 {
      NegativeCount(env, s, collisions);
    } else {
      var _ := StreamRead(env, s, collisions);
      PrunedCore(env, BeforePruning(env, s, collisions), Unserialize(env, s, collisions).m);
    }
  }

  /** A stream of one new and one tried entry. */
  function Pair(key: nat, d: DiskInfo, e: DiskInfo): Stream {
    Stream(0, KEY_SIZE, key, 1, 1, 0, [d], [e], [])
  }

  lemma PairReads(env: Env, key: nat, d: DiskInfo, e: DiskInfo, collisions: set<nat>)
    ensures Unserialize(env, Pair(key, d, e), collisions).Loaded?
    ensures var infos := BeforePruning(env, Pair(key, d, e), collisions).mapInfo;
      infos.Keys == {0, 1} && From(infos[0], d, false) && From(infos[1], e, true) && Kept(infos[0])
  {
    hide NewSlot, TriedSlot, Position, NewBucket;
    var s := Pair(key, d, e);
    assert s.newInfos[..1] == [d] && s.triedInfos[..1] == [e] && s.buckets[..0] == [];
    var m0 := Empty(key, collisions).(nNew := 1, nTried := 1);
    PairNew(env, m0, d);
    var m1 := LoadNew(env, m0, [d], false).(nIdCount := 1);
    PairTried(env, m1, e);
    assert BeforePruning(env, s, collisions) == LoadTried(env, m1, [e]);
  }

  lemma PairNew(env: Env, m: Manager, d: DiskInfo)
    requires m.mapInfo == map[] && m.newTable == map[]
    ensures var m' := LoadNew(env, m, [d], false);
      && m'.mapInfo.Keys == {0} && From(m'.mapInfo[0], d, false) && Kept(m'.mapInfo[0])
      && m'.triedTable == m.triedTable
  {
    hide NewSlot, Position, NewBucket;
    assert [d][..0] == [];
    assert LoadNew(env, m, [], false) == m;
  }

  lemma PairTried(env: Env, m: Manager, e: DiskInfo)
    requires m.triedTable == map[] && m.mapInfo.Keys == {0} && m.nIdCount == 1
    ensures var m' := LoadTried(env, m, [e]);
      m'.mapInfo.Keys == {0, 1} && m'.mapInfo[0] == m.mapInfo[0] && From(m'.mapInfo[1], e, true)
  {
    hide TriedSlot;
    assert [e][..0] == [];
    assert LoadTried(env, m, []) == m;
  }

  /** It fails: with one address listed both as new and as tried the result is never consistent.  With two
      addresses it is, exactly if the times of success are possible. */
  lemma DuplicateAddress(env: Env, key: nat, d: DiskInfo, e: DiskInfo, collisions: set<nat>)
    ensures Unserialize(env, Pair(key, d, e), collisions).Loaded?
    ensures Inv(env, Unserialize(env, Pair(key, d, e), collisions).m) <==>
      d.service.ip != e.service.ip && Possible(d, false) && Possible(e, true)
  {
    PairReads(env, key, d, e, collisions);
    LoadsConsistentlyIff(env, Pair(key, d, e), collisions);
    hide Unserialize, BeforePruning, Inv;
    var infos := BeforePruning(env, Pair(key, d, e), collisions).mapInfo;
    assert 0 in infos && 1 in infos;
    assert Alone(infos, 0) <==> d.service.ip != e.service.ip;
    assert Alone(infos, 1) <==> d.service.ip != e.service.ip;
  }

  predicate Possible(d: DiskInfo, tried: bool) { d.nLastSuccess >= 0 && (tried ==> d.nLastSuccess > 0) }

  /** Every stream with distinct addresses and possible times of success loads consistently, whatever its
      buckets, its version and its key are. */
  lemma DistinctLoadsConsistently(env: Env, s: Stream, collisions: set<nat>)
    requires Unserialize(env, s, collisions).Loaded? && s.nNew >= 0 && s.nTried >= 0
    requires DistinctIps(s.newInfos[..s.nNew] + s.triedInfos[..s.nTried])
    requires forall i :: 0 <= i < s.nNew ==> Possible(s.newInfos[i], false)
    requires forall i :: 0 <= i < s.nTried ==> Possible(s.triedInfos[i], true)
    ensures Inv(env, Unserialize(env, s, collisions).m)
  {
    hide NewDrift, TriedDrift, Unserialize, BeforePruning, Inv, Reading, PrunedTo, TriedRead, Sound, DistinctIps;
    StreamHolds(env, s, collisions);
    var from := StreamRead(env, s, collisions);
    LoadsConsistentlyIff(env, s, collisions);
    ReadSound(BeforePruning(env, s, collisions), s.newInfos[..s.nNew], s.triedInfos[..s.nTried], from);
  }

  lemma StreamHolds(env: Env, s: Stream, collisions: set<nat>)
    requires Unserialize(env, s, collisions).Loaded?
    ensures s.nNew <= |s.newInfos| && s.nTried <= |s.triedInfos|
  {
    hide LoadEntries, LoadBuckets, Prune;
  }

  lemma ReadSound(m: Manager, news: seq<DiskInfo>, trieds: seq<DiskInfo>, from: seq<nat>)
    requires TriedRead(m, news, trieds, from) && DistinctIps(news + trieds)
    requires forall i :: 0 <= i < |news| ==> Possible(news[i], false)
    requires forall i :: 0 <= i < |trieds| ==> Possible(trieds[i], true)
    ensures Sound(m.mapInfo)
  {
    forall id | id in m.mapInfo ensures Fine(m.mapInfo[id]) && Alone(m.mapInfo, id) {
      var i := Origin(m, news, trieds, from, id);
      forall j | j in m.mapInfo && j != id ensures m.mapInfo[j].service.ip != m.mapInfo[id].service.ip {
        var k := Origin(m, news, trieds, from, j);
        OriginsDiffer(news, trieds, from, id, j, i, k);
      }
    }
  }

  /** Where entry `id` was in the stream. */
  lemma Origin(m: Manager, news: seq<DiskInfo>, trieds: seq<DiskInfo>, from: seq<nat>, id: int) returns (i: nat)
    requires TriedRead(m, news, trieds, from) && id in m.mapInfo
    ensures 0 <= id < |news| + |from|
    ensures i == if id < |news| then id else |news| + from[id - |news|]
    ensures i < |news| + |trieds| && From(m.mapInfo[id], (news + trieds)[i], id >= |news|)
  {
    i := if id < |news| then id else |news| + from[id - |news|];
    if id >= |news| { assert m.mapInfo[|news| + (id - |news|)] == m.mapInfo[id]; }
  }

  lemma OriginsDiffer(news: seq<DiskInfo>, trieds: seq<DiskInfo>, from: seq<nat>, id: int, j: int, i: nat, k: nat)
    requires forall i, j :: 0 <= i < j < |from| ==> from[i] < from[j]
    requires 0 <= id < |news| + |from| && 0 <= j < |news| + |from| && id != j
    requires i == if id < |news| then id else |news| + from[id - |news|]
    requires k == if j < |news| then j else |news| + from[j - |news|]
    ensures i != k
  {
  }
}
