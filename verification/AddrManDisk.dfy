/** Saving the address manager and loading it back.  A stream is the sequence of fields the
    serialiser writes; ids are not written, so a loaded manager numbers its entries afresh. */
module AddrManDisk {
  import opened Arithmetic
  import opened AddrManModel
  import opened AddrManOps
  import opened AddrManCalls

  const VERSION := 1
  const KEY_SIZE := 32
  const BIT30 := 0x4000_0000

  datatype DiskInfo = DiskInfo(
    service: Service, flags: set<nat>, nTime: int, source: NetAddr,
    nLastSuccess: int, nAttempts: int)

  datatype Stream = Stream(
    version: int, keySize: int, key: nat, nNew: int, nTried: int, nUBuckets: int,
    newInfos: seq<DiskInfo>, triedInfos: seq<DiskInfo>, buckets: seq<seq<int>>)

  function ToDisk(info: Info): DiskInfo {
    DiskInfo(info.service, info.flags, info.nTime, info.source, info.nLastSuccess, info.nAttempts)
  }

  function FromDisk(d: DiskInfo, place: int, tried: bool): Info {
    Info(d.service, d.flags, d.nTime, d.source, 0, 0, d.nLastSuccess, d.nAttempts, 0, tried, place)
  }

  /** Exclusive or with 2^30, on 32-bit integers. */
  function FlipBit30(n: int): int {
    if (n / BIT30) % 2 == 1 then n - BIT30 else n + BIT30
  }

  // ---------------------------------------------------------------- saving

  /** Ids below `k` of referenced entries, in increasing order. */
  function NewList(infos: Infos, k: int): seq<int>
    decreases if k <= 0 then 0 else k
  {
    if k <= 0 then []
    else
      NewList(infos, k - 1) + (if k - 1 in infos && infos[k - 1].nRefCount != 0 then [k - 1] else [])
  }

  /** Ids below `k` of tried entries, in increasing order. */
  function TriedList(infos: Infos, k: int): seq<int>
    decreases if k <= 0 then 0 else k
  {
    if k <= 0 then []
    else
      TriedList(infos, k - 1) + (if k - 1 in infos && infos[k - 1].fInTried then [k - 1] else [])
  }

  /** What is written for the first `p` places of bucket `b`: for each entry, how many referenced
      entries have a smaller id. */
  function BucketList(m: Manager, b: int, p: int): seq<int>
    decreases if p <= 0 then 0 else p
  {
    if p <= 0 then []
    else
      BucketList(m, b, p - 1)
      + (if Slot(b, p - 1) in m.newTable then [|NewList(m.mapInfo, m.newTable[Slot(b, p - 1)])|]
         else [])
  }

  lemma NewListIn(infos: Infos, k: int)
    ensures forall i :: 0 <= i < |NewList(infos, k)| ==>
      && 0 <= NewList(infos, k)[i] < k
      && NewList(infos, k)[i] in infos && infos[NewList(infos, k)[i]].nRefCount != 0
    decreases if k <= 0 then 0 else k
  {
  }

  lemma TriedListIn(infos: Infos, k: int)
    ensures forall i :: 0 <= i < |TriedList(infos, k)| ==>
      && 0 <= TriedList(infos, k)[i] < k
      && TriedList(infos, k)[i] in infos && infos[TriedList(infos, k)[i]].fInTried
    decreases if k <= 0 then 0 else k
  {
  }

  /** Where a referenced entry stands in the list. */
  lemma {:induction false} NewListAt(infos: Infos, k: int, id: int)
    requires 0 <= id < k && id in infos && infos[id].nRefCount != 0
    ensures |NewList(infos, id)| < |NewList(infos, k)|
    ensures NewList(infos, k)[|NewList(infos, id)|] == id
    decreases k
  {
    if id < k - 1 { NewListAt(infos, k - 1, id); }
  }

  lemma {:induction false} TriedListAt(infos: Infos, k: int, id: int)
    requires 0 <= id < k && id in infos && infos[id].fInTried
    ensures |TriedList(infos, id)| < |TriedList(infos, k)|
    ensures TriedList(infos, k)[|TriedList(infos, id)|] == id
    decreases k
  {
    if id < k - 1 { TriedListAt(infos, k - 1, id); }
  }

  lemma {:induction false} NewListRank(infos: Infos, k: int, i: nat)
    requires i < |NewList(infos, k)|
    ensures |NewList(infos, NewList(infos, k)[i])| == i
    decreases if k <= 0 then 0 else k
  {
    if i < |NewList(infos, k - 1)| { NewListRank(infos, k - 1, i); }
  }

  lemma {:induction false} TriedListRank(infos: Infos, k: int, i: nat)
    requires i < |TriedList(infos, k)|
    ensures |TriedList(infos, TriedList(infos, k)[i])| == i
    decreases if k <= 0 then 0 else k
  {
    if i < |TriedList(infos, k - 1)| { TriedListRank(infos, k - 1, i); }
  }

  function ToDisks(infos: Infos, ids: seq<int>): seq<DiskInfo>
    requires forall i :: 0 <= i < |ids| ==> ids[i] in infos
  {
    seq(|ids|, i requires 0 <= i < |ids| => ToDisk(infos[ids[i]]))
  }

  function Serialize(m: Manager): Stream {
    NewListIn(m.mapInfo, m.nIdCount);
    TriedListIn(m.mapInfo, m.nIdCount);
    Stream(VERSION, KEY_SIZE, m.nKey, m.nNew, m.nTried, FlipBit30(NEW_BUCKET_COUNT),
           ToDisks(m.mapInfo, NewList(m.mapInfo, m.nIdCount)),
           ToDisks(m.mapInfo, TriedList(m.mapInfo, m.nIdCount)),
           seq(NEW_BUCKET_COUNT, b => BucketList(m, b, BUCKET_SIZE)))
  }

  // ---------------------------------------------------------------- how many are listed

  lemma CountBelow(infos: Infos, k: int)
    requires forall id :: id in infos ==> id >= 0
    requires forall id :: id in infos ==> (infos[id].nRefCount != 0 <==> !infos[id].fInTried)
    ensures |TriedBelow(infos, k)| == |TriedList(infos, k)|
    ensures |Below(infos, k)| == |NewList(infos, k)| + |TriedList(infos, k)|
    decreases if k <= 0 then 0 else k
  {
    if k <= 0 {
      assert TriedBelow(infos, k) == {} && Below(infos, k) == {};
    } else {
      CountBelow(infos, k - 1);
      BelowStep(infos, k - 1);
    }
  }

  function Below(infos: Infos, k: int): set<int> {
    set id | id in infos && id < k
  }

  function TriedBelow(infos: Infos, k: int): set<int> {
    set id | id in infos && id < k && infos[id].fInTried
  }

  lemma BelowStep(infos: Infos, k: int)
    ensures |Below(infos, k + 1)| == |Below(infos, k)| + (if k in infos then 1 else 0)
    ensures |TriedBelow(infos, k + 1)|
         == |TriedBelow(infos, k)| + (if k in infos && infos[k].fInTried then 1 else 0)
  {
    assert Below(infos, k + 1) == if k in infos then Below(infos, k) + {k} else Below(infos, k);
    assert TriedBelow(infos, k + 1)
        == if k in infos && infos[k].fInTried then TriedBelow(infos, k) + {k} else TriedBelow(infos, k);
  }

  /** A consistent manager writes exactly nNew and nTried entries. */
  lemma ListsAreComplete(env: Env, m: Manager)
    requires Inv(env, m)
    ensures |NewList(m.mapInfo, m.nIdCount)| == m.nNew
    ensures |TriedList(m.mapInfo, m.nIdCount)| == m.nTried
    ensures m.nNew + m.nTried == |m.mapInfo|
  {
    forall id | id in m.mapInfo
      ensures m.mapInfo[id].nRefCount != 0 <==> !m.mapInfo[id].fInTried
    {
      if m.mapInfo[id].fInTried { NoSlots(env, m, id, {}); }
    }
    hide TriedPlaced, NewPlaced, Shuffled, Referenced, Timed;
    CountBelow(m.mapInfo, m.nIdCount);
    assert Below(m.mapInfo, m.nIdCount) == m.mapInfo.Keys;
    assert TriedBelow(m.mapInfo, m.nIdCount) == TriedIds(m.mapInfo);
  }

  lemma {:induction false} BucketListFits(m: Manager, b: int, p: nat)
    ensures |BucketList(m, b, p)| <= p
    decreases p
  {
    hide NewList;
    if p > 0 { BucketListFits(m, b, p - 1); }
  }

  /** The header as the format describes it, as many entries as it says, and 1024 buckets of at most 64. */
  lemma StreamHeader(env: Env, m: Manager)
    requires Inv(env, m)
    ensures var s := Serialize(m);
      && s.version == 1 && s.keySize == 32 && s.key == m.nKey && s.nUBuckets == 0x4000_0400
      && |s.newInfos| == s.nNew == m.nNew && |s.triedInfos| == s.nTried == m.nTried
      && |s.buckets| == 1024 && forall b :: 0 <= b < 1024 ==> |s.buckets[b]| <= 64
  {
    hide NewList, TriedList, BucketList, Inv;
    ListsAreComplete(env, m);
    NewListIn(m.mapInfo, m.nIdCount);
    TriedListIn(m.mapInfo, m.nIdCount);
    forall b | 0 <= b < 1024 ensures |Serialize(m).buckets[b]| <= 64 { BucketListFits(m, b, 64); }
  }

  // ---------------------------------------------------------------- loading

  datatype Corruption = BadKeySize | TooManyNew | TooManyTried | EndOfData

  datatype LoadResult = Loaded(m: Manager) | Corrupt(why: Corruption)

  /** Enter one entry under id `id` into mapInfo, mapAddr and vRandom. */
  function Enrol(m: Manager, id: int, d: DiskInfo, tried: bool): Manager {
    m.(mapInfo := m.mapInfo[id := FromDisk(d, |m.vRandom|, tried)],
       mapAddr := m.mapAddr[d.service.ip := id],
       vRandom := m.vRandom + [id])
  }

  /** Load one new entry; when the saved buckets cannot be used, give it its home slot at once if
      that is free. */
  function LoadNewOne(env: Env, m: Manager, id: int, d: DiskInfo, usable: bool): Manager {
    var m1 := Enrol(m, id, d, false);
    var home := HomeSlot(env, m.nKey, m1.mapInfo[id]);
    if usable || home in m1.newTable then m1
    else m1.(newTable := m1.newTable[home := id], mapInfo := SetRef(m1, id, 1))
  }

  function LoadNew(env: Env, m: Manager, ds: seq<DiskInfo>, usable: bool): Manager {
    if ds == [] then m
    else
      var n := |ds| - 1;
      LoadNewOne(env, LoadNew(env, m, ds[..n], usable), n, ds[n], usable)
  }

  /** Load one tried entry, unless its slot is taken: then it is lost.  Ids start below zero when the saved
      nNew does, and the id -1 in a slot means that the slot is free. */
  function LoadTriedOne(env: Env, m: Manager, d: DiskInfo): Manager {
    var s := TriedSlot(env, m.nKey, d.service);
    if s in m.triedTable then m.(nTried := m.nTried - 1)
    else
      Enrol(m, m.nIdCount, d, true).(
        triedTable := if m.nIdCount == -1 then m.triedTable else m.triedTable[s := m.nIdCount],
        nIdCount := m.nIdCount + 1)
  }

  function LoadTried(env: Env, m: Manager, ds: seq<DiskInfo>): Manager {
    if ds == [] then m
    else
      var n := |ds| - 1;
      LoadTriedOne(env, LoadTried(env, m, ds[..n]), ds[n])
  }

  /** Load one saved reference from bucket `b`. */
  function LoadIndex(env: Env, m: Manager, b: int, index: int, usable: bool): Manager {
    if usable && 0 <= index < m.nNew && index in m.mapInfo then
      var s := NewSlot(env, m.nKey, m.mapInfo[index].service, b);
      if s !in m.newTable && m.mapInfo[index].nRefCount < NEW_BUCKETS_PER_ADDRESS
      then Reference(m, s, index)
      else m
    else m
  }

  function LoadBucket(env: Env, m: Manager, b: int, indices: seq<int>, usable: bool): Manager {
    if indices == [] then m
    else
      var n := |indices| - 1;
      LoadIndex(env, LoadBucket(env, m, b, indices[..n], usable), b, indices[n], usable)
  }

  function LoadBuckets(env: Env, m: Manager, buckets: seq<seq<int>>, usable: bool): Manager {
    if buckets == [] then m
    else
      var n := |buckets| - 1;
      LoadBucket(env, LoadBuckets(env, m, buckets[..n], usable), n, buckets[n], usable)
  }

  /** Delete the entries with ids below `k` that ended up in neither table. */
  function Prune(m: Manager, k: int): Manager
    decreases if k <= 0 then 0 else k
  {
    if k <= 0 then m
    else
      var m1 := Prune(m, k - 1);
      if Deletable(m1, k - 1) then Delete(m1, k - 1) else m1
  }

  predicate Usable(s: Stream) {
    s.version == VERSION && FlipBit30(s.nUBuckets) == NEW_BUCKET_COUNT
  }

  function BucketsRead(s: Stream): int {
    if s.version != 0 then FlipBit30(s.nUBuckets) else s.nUBuckets
  }

  /** The new and the tried entries of a stream, enrolled. */
  function LoadEntries(env: Env, s: Stream, collisions: set<nat>): Manager
    requires s.nNew <= |s.newInfos| && s.nTried <= |s.triedInfos|
  {
    var m0 := Empty(s.key, collisions).(nNew := s.nNew, nTried := s.nTried);
    var m1 := LoadNew(env, m0, s.newInfos[..Max(0, s.nNew)], Usable(s)).(nIdCount := s.nNew);
    LoadTried(env, m1, s.triedInfos[..Max(0, s.nTried)])
  }

  /** Load a stream into a manager that keeps its pending collisions. */
  function Unserialize(env: Env, s: Stream, collisions: set<nat>): LoadResult {
    if s.keySize != KEY_SIZE then Corrupt(BadKeySize)
    else if s.nNew > NEW_BUCKET_COUNT * BUCKET_SIZE then Corrupt(TooManyNew)
    else if s.nTried > TRIED_BUCKET_COUNT * BUCKET_SIZE then Corrupt(TooManyTried)
    else if |s.newInfos| < s.nNew || |s.triedInfos| < s.nTried || |s.buckets| < BucketsRead(s)
    then Corrupt(EndOfData)
    else
      var m2 := LoadEntries(env, s, collisions);
      var m3 := LoadBuckets(env, m2, s.buckets[..Max(0, BucketsRead(s))], Usable(s));
      Loaded(Prune(m3, m3.nIdCount))
  }

  // ---------------------------------------------------------------- what has been enrolled

  predicate DistinctIps(ds: seq<DiskInfo>) {
    forall i, j :: 0 <= i < j < |ds| ==> ds[i].service.ip != ds[j].service.ip
  }

  predicate DistinctSlots(env: Env, key: nat, ds: seq<DiskInfo>, nNew: nat) {
    forall i, j :: nNew <= i < j < |ds| ==>
      TriedSlot(env, key, ds[i].service) != TriedSlot(env, key, ds[j].service)
  }

  /** Entry `i` of `ds` is at place `i` of vRandom and listed under its address. */
  predicate Located(v: seq<int>, addrs: map<NetAddr, int>, ds: seq<DiskInfo>) {
    && |v| == |ds| && (forall i :: 0 <= i < |ds| ==> v[i] == i)
    && (forall a :: a in addrs ==> 0 <= addrs[a] < |ds| && ds[addrs[a]].service.ip == a)
    && (forall i :: 0 <= i < |ds| ==>
          ds[i].service.ip in addrs && addrs[ds[i].service.ip] == i)
  }

  /** Entry `i` of `ds` is enrolled under id `i`; those from `nNew` on are tried. */
  predicate Catalogued(m: Manager, ds: seq<DiskInfo>, nNew: nat) {
    && Located(m.vRandom, m.mapAddr, ds)
    && (forall i :: i in m.mapInfo ==> 0 <= i < |ds|)
    && (forall i :: 0 <= i < |ds| ==> i in m.mapInfo && m.mapInfo[i] == FromDisk(ds[i], i, i >= nNew))
  }

  predicate TriedFiled(env: Env, key: nat, tried: Table, ds: seq<DiskInfo>, nNew: nat) {
    && (forall s :: s in tried ==>
          nNew <= tried[s] < |ds| && s == TriedSlot(env, key, ds[tried[s]].service))
    && (forall i :: nNew <= i < |ds| ==>
          && TriedSlot(env, key, ds[i].service) in tried
          && tried[TriedSlot(env, key, ds[i].service)] == i)
  }

  lemma EnrolCatalogues(m: Manager, ds: seq<DiskInfo>, nNew: nat, d: DiskInfo)
    requires Catalogued(m, ds, nNew) && DistinctIps(ds + [d])
    ensures Catalogued(Enrol(m, |ds|, d, |ds| >= nNew), ds + [d], nNew)
  {
    var ds' := ds + [d];
    assert forall i :: 0 <= i < |ds| ==> ds'[i].service.ip != ds'[|ds|].service.ip;
  }

  lemma {:induction false} LoadNewCatalogues(env: Env, m: Manager, ds: seq<DiskInfo>, nNew: nat)
    requires Catalogued(m, [], nNew) && DistinctIps(ds) && |ds| <= nNew
    ensures var m' := LoadNew(env, m, ds, true);
            && Catalogued(m', ds, nNew)
            && m' == m.(mapInfo := m'.mapInfo, mapAddr := m'.mapAddr, vRandom := m'.vRandom)
  {
    hide Catalogued, DistinctIps, Enrol, HomeSlot;
    if ds != [] {
      var n := |ds| - 1;
      PrefixIps(ds, n);
      LoadNewCatalogues(env, m, ds[..n], nNew);
      assert ds == ds[..n] + [ds[n]];
      EnrolCatalogues(LoadNew(env, m, ds[..n], true), ds[..n], nNew, ds[n]);
      EnrolOnly(LoadNew(env, m, ds[..n], true), n, ds[n]);
    }
  }

  lemma PrefixIps(ds: seq<DiskInfo>, n: nat)
    requires DistinctIps(ds) && n <= |ds|
    ensures DistinctIps(ds[..n])
  {
  }

  lemma EnrolOnly(m: Manager, id: int, d: DiskInfo)
    ensures var m' := Enrol(m, id, d, false);
      id in m'.mapInfo && m' == m.(mapInfo := m'.mapInfo, mapAddr := m'.mapAddr, vRandom := m'.vRandom)
  {
  }

  lemma LoadTriedStep(env: Env, m: Manager, ds: seq<DiskInfo>, nNew: nat, d: DiskInfo)
    requires Catalogued(m, ds, nNew) && TriedFiled(env, m.nKey, m.triedTable, ds, nNew)
    requires m.nIdCount == |ds| >= nNew
    requires DistinctIps(ds + [d]) && DistinctSlots(env, m.nKey, ds + [d], nNew)
    ensures var m' := LoadTriedOne(env, m, d);
            && Catalogued(m', ds + [d], nNew) && TriedFiled(env, m'.nKey, m'.triedTable, ds + [d], nNew)
            && m' == m.(mapInfo := m'.mapInfo, mapAddr := m'.mapAddr, vRandom := m'.vRandom,
                        triedTable := m'.triedTable, nIdCount := |ds| + 1)
  {
    hide TriedSlot, TriedFiled, DistinctSlots, Located;
    TriedFiledNext(env, m.nKey, m.triedTable, ds, nNew, d);
    EnrolCatalogues(m, ds, nNew, d);
    assert Catalogued(LoadTriedOne(env, m, d), ds + [d], nNew);
  }

  /** The slot of the next tried entry is free, and then it is taken. */
  lemma TriedFiledNext(env: Env, key: nat, tried: Table, ds: seq<DiskInfo>, nNew: nat, d: DiskInfo)
    requires TriedFiled(env, key, tried, ds, nNew) && nNew <= |ds| && DistinctSlots(env, key, ds + [d], nNew)
    ensures TriedSlot(env, key, d.service) !in tried
    ensures TriedFiled(env, key, tried[TriedSlot(env, key, d.service) := |ds|], ds + [d], nNew)
  {
    hide TriedSlot;
    var all, s := ds + [d], TriedSlot(env, key, d.service);
    forall i | nNew <= i < |ds| ensures TriedSlot(env, key, ds[i].service) != s {
      assert TriedSlot(env, key, all[i].service) != TriedSlot(env, key, all[|ds|].service);
    }
    assert forall i :: 0 <= i < |ds| ==> all[i] == ds[i];
  }

  lemma {:induction false} LoadTriedCatalogues(env: Env, m: Manager, news: seq<DiskInfo>,
                                               ds: seq<DiskInfo>)
    requires Catalogued(m, news, |news|) && m.triedTable == map[] && m.nIdCount == |news|
    requires DistinctIps(news + ds) && DistinctSlots(env, m.nKey, news + ds, |news|)
    ensures var m' := LoadTried(env, m, ds);
            && Catalogued(m', news + ds, |news|) && TriedFiled(env, m'.nKey, m'.triedTable, news + ds, |news|)
            && m' == m.(mapInfo := m'.mapInfo, mapAddr := m'.mapAddr, vRandom := m'.vRandom,
                        triedTable := m'.triedTable, nIdCount := |news| + |ds|)
  {
    hide TriedSlot, Catalogued, TriedFiled, DistinctIps, DistinctSlots, LoadTriedOne;
    if ds == [] {
      assert news + ds == news;
      NothingFiled(env, m.nKey, news);
    } else {
      var n := |ds| - 1;
      assert news + ds == (news + ds[..n]) + [ds[n]];
      PrefixDistinct(env, m.nKey, news + ds[..n], ds[n], |news|);
      LoadTriedCatalogues(env, m, news, ds[..n]);
      LoadTriedStep(env, LoadTried(env, m, ds[..n]), news + ds[..n], |news|, ds[n]);
    }
  }

  lemma NothingFiled(env: Env, key: nat, news: seq<DiskInfo>)
    ensures TriedFiled(env, key, map[], news, |news|)
  {
  }

  lemma PrefixDistinct(env: Env, key: nat, ds: seq<DiskInfo>, d: DiskInfo, nNew: nat)
    requires DistinctIps(ds + [d]) && DistinctSlots(env, key, ds + [d], nNew)
    ensures DistinctIps(ds) && DistinctSlots(env, key, ds, nNew)
  {
    hide TriedSlot;
    assert forall i :: 0 <= i < |ds| ==> (ds + [d])[i] == ds[i];
    forall i, j | 0 <= i < j < |ds|
      ensures ds[i].service.ip != ds[j].service.ip
    {
      assert (ds + [d])[i].service.ip != (ds + [d])[j].service.ip;
    }
    forall i, j | nNew <= i < j < |ds|
      ensures TriedSlot(env, key, ds[i].service) != TriedSlot(env, key, ds[j].service)
    {
      assert TriedSlot(env, key, (ds + [d])[i].service) != TriedSlot(env, key, (ds + [d])[j].service);
    }
  }

  // ---------------------------------------------------------------- renumbering

  /** The id an entry gets when it is loaded back, and the entry that gets id `i`. */
  function Number(m: Manager, id: int): int
    requires id in m.mapInfo
  {
    if m.mapInfo[id].fInTried
    then |NewList(m.mapInfo, m.nIdCount)| + |TriedList(m.mapInfo, id)|
    else |NewList(m.mapInfo, id)|
  }

  function Entry(m: Manager, i: int): int
    requires 0 <= i < |NewList(m.mapInfo, m.nIdCount)| + |TriedList(m.mapInfo, m.nIdCount)|
  {
    var news := NewList(m.mapInfo, m.nIdCount);
    if i < |news| then news[i] else TriedList(m.mapInfo, m.nIdCount)[i - |news|]
  }

  function Saved(m: Manager): seq<DiskInfo> {
    Serialize(m).newInfos + Serialize(m).triedInfos
  }

  lemma NumberOf(env: Env, m: Manager, id: int)
    requires Inv(env, m) && id in m.mapInfo
    ensures |Saved(m)| == |m.mapInfo| == m.nNew + m.nTried
    ensures 0 <= Number(m, id) < |m.mapInfo| && Entry(m, Number(m, id)) == id
    ensures Saved(m)[Number(m, id)] == ToDisk(m.mapInfo[id])
    ensures m.mapInfo[id].fInTried <==> Number(m, id) >= m.nNew
  {
    ListsAreComplete(env, m);
    RefsAndTried(env, m, id);
    hide Core, TriedDrift, NewDrift;
    if m.mapInfo[id].fInTried {
      TriedListAt(m.mapInfo, m.nIdCount, id);
    } else {
      NewListAt(m.mapInfo, m.nIdCount, id);
    }
  }

  lemma RefsAndTried(env: Env, m: Manager, id: int)
    requires Inv(env, m) && id in m.mapInfo
    ensures m.mapInfo[id].nRefCount != 0 <==> !m.mapInfo[id].fInTried
    ensures 0 <= id < m.nIdCount
  {
    if m.mapInfo[id].fInTried { NoSlots(env, m, id, {}); }
  }

  lemma EntryOf(env: Env, m: Manager, i: int)
    requires Inv(env, m) && 0 <= i < |m.mapInfo|
    ensures |Saved(m)| == |m.mapInfo| == |NewList(m.mapInfo, m.nIdCount)| + |TriedList(m.mapInfo, m.nIdCount)|
    ensures Entry(m, i) in m.mapInfo && Number(m, Entry(m, i)) == i
  {
    ListsAreComplete(env, m);
    NewListIn(m.mapInfo, m.nIdCount);
    TriedListIn(m.mapInfo, m.nIdCount);
    RefsAndTried(env, m, Entry(m, i));
    hide Core, TriedDrift, NewDrift;
    if i < m.nNew {
      NewListRank(m.mapInfo, m.nIdCount, i);
    } else {
      TriedListRank(m.mapInfo, m.nIdCount, i - m.nNew);
    }
  }

  /** What is saved names no address twice and no tried slot twice. */
  lemma SavedIsDistinct(env: Env, m: Manager)
    requires Inv(env, m)
    ensures m.nNew >= 0 && m.nTried >= 0
    ensures DistinctIps(Saved(m)) && DistinctSlots(env, m.nKey, Saved(m), m.nNew)
  {
    ListsAreComplete(env, m);
    var ds := Saved(m);
    forall i, j | 0 <= i < j < |ds|
      ensures ds[i].service.ip != ds[j].service.ip
      ensures m.nNew <= i ==>
        TriedSlot(env, m.nKey, ds[i].service) != TriedSlot(env, m.nKey, ds[j].service)
    {
      SavedPair(env, m, i, j);
    }
  }

  lemma SavedPair(env: Env, m: Manager, i: int, j: int)
    requires Inv(env, m) && 0 <= i < j < |m.mapInfo|
    ensures |Saved(m)| == |m.mapInfo|
    ensures Saved(m)[i].service.ip != Saved(m)[j].service.ip
    ensures m.nNew <= i ==>
      TriedSlot(env, m.nKey, Saved(m)[i].service) != TriedSlot(env, m.nKey, Saved(m)[j].service)
  {
    EntryOf(env, m, i);
    EntryOf(env, m, j);
    NumberOf(env, m, Entry(m, i));
    NumberOf(env, m, Entry(m, j));
    hide TriedSlot, Saved, Number, Entry, Shuffled, NewPlaced, Referenced, Anchored, TriedDrift, NewDrift;
  }

  // ---------------------------------------------------------------- references

  /** Slots read back once bucket `b` has been read up to place `p`. */
  predicate Seen(s: Slot, b: int, p: int) {
    s.bucket < b || (s.bucket == b && s.pos < p)
  }

  function SavedTable(m: Manager, b: int, p: int): Table
    requires forall s :: s in m.newTable ==> m.newTable[s] in m.mapInfo
  {
    map s | s in m.newTable && Seen(s, b, p) :: Number(m, m.newTable[s])
  }

  /** The enrolled entries, with the counts that go with the references of `t`. */
  predicate Counting(infos: Infos, t: Table, ds: seq<DiskInfo>, nNew: int) {
    && (forall i :: i in infos ==> 0 <= i < |ds|)
    && (forall i :: 0 <= i < |ds| ==>
          && i in infos
          && infos[i] == FromDisk(ds[i], i, i >= nNew).(nRefCount := |SlotsOf(t, i)|))
  }

  predicate Restoring(m: Manager, m': Manager, b: int, p: int)
    requires forall s :: s in m.newTable ==> m.newTable[s] in m.mapInfo
  {
    && m'.nKey == m.nKey && m'.nNew == m.nNew
    && m'.newTable == SavedTable(m, b, p)
    && Counting(m'.mapInfo, m'.newTable, Saved(m), m.nNew)
  }

  lemma Holders(env: Env, m: Manager)
    requires Inv(env, m)
    ensures forall s :: s in m.newTable ==> m.newTable[s] in m.mapInfo
  {
  }

  lemma SavedTableStep(env: Env, m: Manager, b: int, p: int)
    requires forall s :: s in m.newTable ==> m.newTable[s] in m.mapInfo
    ensures var s := Slot(b, p);
            SavedTable(m, b, p + 1)
              == if s in m.newTable then SavedTable(m, b, p)[s := Number(m, m.newTable[s])]
                 else SavedTable(m, b, p)
    ensures Slot(b, p) !in SavedTable(m, b, p)
  {
    hide Number;
    forall s: Slot
      ensures Seen(s, b, p + 1) <==> Seen(s, b, p) || s == Slot(b, p)
    {
    }
  }

  lemma NumberInjective(env: Env, m: Manager, a: int, b: int)
    requires Inv(env, m) && a in m.mapInfo && b in m.mapInfo && Number(m, a) == Number(m, b)
    ensures a == b
  {
    hide Inv, Number, Entry, Saved;
    NumberOf(env, m, a);
    NumberOf(env, m, b);
  }

  /** An entry still to be referenced has fewer references than it will end up with. */
  lemma RoomForOne(env: Env, m: Manager, b: int, p: int)
    requires Inv(env, m) && forall s :: s in m.newTable ==> m.newTable[s] in m.mapInfo
    requires Slot(b, p) in m.newTable
    ensures |SlotsOf(SavedTable(m, b, p), Number(m, m.newTable[Slot(b, p)]))| < NEW_BUCKETS_PER_ADDRESS
  {
    hide Inv, Number;
    var id := m.newTable[Slot(b, p)];
    var some, all := SlotsOf(SavedTable(m, b, p), Number(m, id)), SlotsOf(m.newTable, id);
    forall s | s in some
      ensures s in all && s != Slot(b, p)
    {
      NumberInjective(env, m, id, m.newTable[s]);
    }
    EntryFacts(env, m, id);
    assert Slot(b, p) in all - some;
    assert all == some + (all - some);
  }

  /** What the index saved for a slot leads back to. */
  lemma IndexLeadsBack(env: Env, m: Manager, b: int, p: int, index: int)
    requires Inv(env, m) && Slot(b, p) in m.newTable && m.newTable[Slot(b, p)] in m.mapInfo
    requires index == |NewList(m.mapInfo, m.newTable[Slot(b, p)])|
    ensures index == Number(m, m.newTable[Slot(b, p)]) && 0 <= index < m.nNew <= |Saved(m)|
    ensures Slot(b, p) == NewSlot(env, m.nKey, Saved(m)[index].service, b)
  {
    NumberOf(env, m, m.newTable[Slot(b, p)]);
    ListsAreComplete(env, m);
    hide Saved, NewList, TriedList, NewSlot, Indexed, Shuffled, TriedPlaced, Referenced, Anchored, TriedDrift, NewDrift;
  }

  /** Nothing but references changes. */
  predicate KeepsRest(m: Manager, m': Manager) {
    m' == m.(newTable := m'.newTable, mapInfo := m'.mapInfo)
  }

  lemma CountingStep(infos: Infos, t: Table, ds: seq<DiskInfo>, nNew: int, s: Slot, index: int)
    requires Counting(infos, t, ds, nNew) && 0 <= index < |ds| && s !in t
    ensures Counting(infos[index := infos[index].(nRefCount := infos[index].nRefCount + 1)],
                     t[s := index], ds, nNew)
  {
    forall i | 0 <= i < |ds|
      ensures |SlotsOf(t[s := index], i)| == |SlotsOf(t, i)| + (if i == index then 1 else 0)
    {
      SlotsInsert(t, s, index, i);
    }
  }

  lemma RestoreStep(env: Env, m: Manager, m': Manager, b: int, p: int, index: int)
    requires Inv(env, m) && forall s :: s in m.newTable ==> m.newTable[s] in m.mapInfo
    requires Slot(b, p) in m.newTable && index == |NewList(m.mapInfo, m.newTable[Slot(b, p)])|
    requires Restoring(m, m', b, p)
    ensures KeepsRest(m', LoadIndex(env, m', b, index, true))
    ensures Restoring(m, LoadIndex(env, m', b, index, true), b, p + 1)
  {
    IndexLeadsBack(env, m, b, p, index);
    RoomForOne(env, m, b, p);
    SavedTableStep(env, m, b, p);
    assert m'.mapInfo[index].service == Saved(m)[index].service;
    assert m'.mapInfo[index].nRefCount < NEW_BUCKETS_PER_ADDRESS;
    hide Inv, NewSlot, Saved, SavedTable, NewList, TriedList, SlotsOf, Counting, Number;
    CountingStep(m'.mapInfo, m'.newTable, Saved(m), m.nNew, Slot(b, p), index);
  }

  lemma {:induction false} RestoreBucket(env: Env, m: Manager, m': Manager, b: int, p: nat)
    requires Inv(env, m) && forall s :: s in m.newTable ==> m.newTable[s] in m.mapInfo
    requires Restoring(m, m', b, 0)
    ensures Restoring(m, LoadBucket(env, m', b, BucketList(m, b, p), true), b, p)
    ensures KeepsRest(m', LoadBucket(env, m', b, BucketList(m, b, p), true))
  {
    hide Inv, NewList, Saved, LoadIndex, SavedTable, Number, Counting;
    if p > 0 {
      RestoreBucket(env, m, m', b, p - 1);
      var front := BucketList(m, b, p - 1);
      SavedTableStep(env, m, b, p - 1);
      if Slot(b, p - 1) in m.newTable {
        var index := |NewList(m.mapInfo, m.newTable[Slot(b, p - 1)])|;
        assert BucketList(m, b, p) == front + [index];
        assert BucketList(m, b, p)[..|front|] == front;
        RestoreStep(env, m, LoadBucket(env, m', b, front, true), b, p - 1, index);
      } else {
        assert BucketList(m, b, p) == front;
      }
    }
  }

  lemma NextBucket(env: Env, m: Manager, b: int)
    requires Inv(env, m) && forall s :: s in m.newTable ==> m.newTable[s] in m.mapInfo
    ensures SavedTable(m, b, BUCKET_SIZE) == SavedTable(m, b + 1, 0)
  {
    hide Number;
    forall s | s in m.newTable
      ensures Seen(s, b, BUCKET_SIZE) <==> Seen(s, b + 1, 0)
    {
      assert s == NewSlot(env, m.nKey, m.mapInfo[m.newTable[s]].service, s.bucket);
    }
  }

  lemma {:induction false} RestoreBuckets(env: Env, m: Manager, m': Manager, n: nat)
    requires Inv(env, m) && forall s :: s in m.newTable ==> m.newTable[s] in m.mapInfo
    requires n <= NEW_BUCKET_COUNT && Restoring(m, m', 0, 0)
    ensures Restoring(m, LoadBuckets(env, m', Serialize(m).buckets[..n], true), n, 0)
    ensures KeepsRest(m', LoadBuckets(env, m', Serialize(m).buckets[..n], true))
  {
    hide Inv, NewList, TriedList, Saved, SavedTable, Number, Counting, LoadBucket, BucketList;
    if n > 0 {
      RestoreBuckets(env, m, m', n - 1);
      var buckets := Serialize(m).buckets[..n];
      assert buckets[..n - 1] == Serialize(m).buckets[..n - 1];
      assert buckets[n - 1] == BucketList(m, n - 1, BUCKET_SIZE);
      RestoreBucket(env, m, LoadBuckets(env, m', buckets[..n - 1], true), n - 1, BUCKET_SIZE);
      NextBucket(env, m, n - 1);
    }
  }

  /** Before any bucket is read there are no references. */
  lemma RestoreStart(env: Env, m: Manager, m': Manager)
    requires Inv(env, m) && forall s :: s in m.newTable ==> m.newTable[s] in m.mapInfo
    requires m.nNew >= 0 && Catalogued(m', Saved(m), m.nNew)
    requires m'.newTable == map[] && m'.nKey == m.nKey && m'.nNew == m.nNew
    ensures Restoring(m, m', 0, 0)
  {
    forall s | s in m.newTable
      ensures !Seen(s, 0, 0)
    {
      assert s == NewSlot(env, m.nKey, m.mapInfo[m.newTable[s]].service, s.bucket);
    }
    hide Saved, NewList, TriedList, Inv;
    assert SavedTable(m, 0, 0) == map[];
    forall i
      ensures SlotsOf(m'.newTable, i) == {}
    {
    }
  }

  lemma {:induction false} PruneNothing(m: Manager, k: int)
    requires forall id :: id in m.mapInfo ==> m.mapInfo[id].fInTried || m.mapInfo[id].nRefCount != 0
    ensures Prune(m, k) == m
    decreases if k <= 0 then 0 else k
  {
    if k > 0 { PruneNothing(m, k - 1); }
  }

  // ---------------------------------------------------------------- the round trip

  /** A table with every id replaced by its new number. */
  predicate Renumbered<K>(m: Manager, t: map<K, int>, t': map<K, int>) {
    && t'.Keys == t.Keys
    && forall k :: k in t ==> t[k] in m.mapInfo && t'[k] == Number(m, t[k])
  }

  /** The entry with the fields that are kept in memory only reset. */
  function Rested(info: Info, place: int): Info {
    info.(nLastTry := 0, nLastCountAttempt := 0, nRandomPos := place)
  }

  /** `m'` is `m` with its entries renumbered: nothing lost, the same buckets, the same counts. */
  predicate Restored(m: Manager, m': Manager) {
    && m'.nKey == m.nKey && m'.nNew == m.nNew && m'.nTried == m.nTried
    && m'.nIdCount == |m.mapInfo| == |m'.mapInfo|
    && (forall id :: id in m.mapInfo ==>
          && Number(m, id) in m'.mapInfo
          && m'.mapInfo[Number(m, id)] == Rested(m.mapInfo[id], Number(m, id)))
    && Renumbered(m, m.newTable, m'.newTable)
    && Renumbered(m, m.triedTable, m'.triedTable)
    && Renumbered(m, m.mapAddr, m'.mapAddr)
  }

  /** Where loading ends: every saved entry enrolled, filed and referenced. */
  predicate Complete(env: Env, m: Manager, m': Manager)
    requires forall s :: s in m.newTable ==> m.newTable[s] in m.mapInfo
  {
    var ds := Saved(m);
    && Restoring(m, m', NEW_BUCKET_COUNT, 0) && m.nNew >= 0
    && TriedFiled(env, m'.nKey, m'.triedTable, ds, m.nNew)
    && m'.nIdCount == |ds| && m'.nTried == m.nTried
    && Located(m'.vRandom, m'.mapAddr, ds)
  }

  lemma AllSeen(env: Env, m: Manager)
    requires Inv(env, m) && forall s :: s in m.newTable ==> m.newTable[s] in m.mapInfo
    ensures Renumbered(m, m.newTable, SavedTable(m, NEW_BUCKET_COUNT, 0))
  {
    hide Number;
    forall s | s in m.newTable
      ensures Seen(s, NEW_BUCKET_COUNT, 0)
    {
    }
    assert SavedTable(m, NEW_BUCKET_COUNT, 0).Keys == m.newTable.Keys;
  }

  /** Renumbering moves no reference from one entry to another. */
  lemma SameReferences(env: Env, m: Manager, t: Table, id: int)
    requires Inv(env, m) && Renumbered(m, m.newTable, t) && id in m.mapInfo
    ensures SlotsOf(t, Number(m, id)) == SlotsOf(m.newTable, id)
  {
    forall s | s in t
      ensures t[s] == Number(m, id) <==> m.newTable[s] == id
    {
      NumberOf(env, m, id);
      NumberOf(env, m, m.newTable[s]);
    }
    hide Number, Inv;
  }

  lemma CompleteEntry(env: Env, m: Manager, m': Manager, id: int)
    requires Inv(env, m) && forall s :: s in m.newTable ==> m.newTable[s] in m.mapInfo
    requires Complete(env, m, m') && id in m.mapInfo
    ensures Number(m, id) in m'.mapInfo
    ensures m'.mapInfo[Number(m, id)] == Rested(m.mapInfo[id], Number(m, id))
  {
    NumberOf(env, m, id);
    AllSeen(env, m);
    SameReferences(env, m, m'.newTable, id);
    RefOf(m.mapInfo, m.newTable, id);
    hide Inv, Number, Saved, SavedTable, NewList, TriedList, SlotsOf, Renumbered;
  }

  lemma TriedGoes(env: Env, m: Manager, m': Manager, s: Slot)
    requires Inv(env, m) && m.nNew >= 0 && m'.nKey == m.nKey
    requires TriedFiled(env, m'.nKey, m'.triedTable, Saved(m), m.nNew)
    requires s in m.triedTable
    ensures m.triedTable[s] in m.mapInfo
    ensures s in m'.triedTable && m'.triedTable[s] == Number(m, m.triedTable[s])
  {
    TriedEntry(env, m, s, {});
    NumberOf(env, m, m.triedTable[s]);
    assert s == TriedSlot(env, m.nKey, m.mapInfo[m.triedTable[s]].service);
    hide Inv, Number, Saved, TriedSlot;
  }

  lemma TriedComes(env: Env, m: Manager, m': Manager, s: Slot)
    requires Inv(env, m) && m.nNew >= 0 && m'.nKey == m.nKey
    requires TriedFiled(env, m'.nKey, m'.triedTable, Saved(m), m.nNew)
    requires s in m'.triedTable
    ensures s in m.triedTable
  {
    var i := m'.triedTable[s];
    ListsAreComplete(env, m);
    EntryOf(env, m, i);
    NumberOf(env, m, Entry(m, i));
    WhereIs(env, m, Entry(m, i));
    hide Inv, Number, Entry, Saved, TriedSlot, OwnSlots;
  }

  lemma CompleteTried(env: Env, m: Manager, m': Manager)
    requires Inv(env, m) && forall s :: s in m.newTable ==> m.newTable[s] in m.mapInfo
    requires Complete(env, m, m')
    ensures Renumbered(m, m.triedTable, m'.triedTable)
  {
    hide Inv, Number, Saved, TriedFiled, Restoring;
    assert m'.nKey == m.nKey by { RestoringKey(m, m'); }
    forall s | s in m.triedTable
      ensures m.triedTable[s] in m.mapInfo
      ensures s in m'.triedTable && m'.triedTable[s] == Number(m, m.triedTable[s])
    {
      TriedGoes(env, m, m', s);
    }
    forall s | s in m'.triedTable
      ensures s in m.triedTable
    {
      TriedComes(env, m, m', s);
    }
  }

  lemma RestoringKey(m: Manager, m': Manager)
    requires forall s :: s in m.newTable ==> m.newTable[s] in m.mapInfo
    requires Restoring(m, m', NEW_BUCKET_COUNT, 0)
    ensures m'.nKey == m.nKey
  {
  }

  lemma AddrGoes(env: Env, m: Manager, a: NetAddr)
    requires Inv(env, m) && a in m.mapAddr
    ensures m.mapAddr[a] in m.mapInfo
    ensures 0 <= Number(m, m.mapAddr[a]) < |Saved(m)|
    ensures Saved(m)[Number(m, m.mapAddr[a])].service.ip == a
  {
    assert m.mapAddr[a] in m.mapInfo && m.mapInfo[m.mapAddr[a]].service.ip == a;
    hide Inv, Number, Saved;
    NumberOf(env, m, m.mapAddr[a]);
  }

  lemma AddrComes(env: Env, m: Manager, i: int)
    requires Inv(env, m) && 0 <= i < |Saved(m)|
    ensures Saved(m)[i].service.ip in m.mapAddr
  {
    ListsAreComplete(env, m);
    EntryOf(env, m, i);
    NumberOf(env, m, Entry(m, i));
    hide Number, Entry, Saved, Shuffled, TriedPlaced, NewPlaced, Referenced;
  }

  lemma CompleteAddrs(env: Env, m: Manager, m': Manager)
    requires Inv(env, m) && forall s :: s in m.newTable ==> m.newTable[s] in m.mapInfo
    requires Complete(env, m, m')
    ensures Renumbered(m, m.mapAddr, m'.mapAddr)
  {
    hide Inv, Number, Saved, TriedFiled, Restoring;
    forall a | a in m.mapAddr
      ensures m.mapAddr[a] in m.mapInfo
      ensures a in m'.mapAddr && m'.mapAddr[a] == Number(m, m.mapAddr[a])
    {
      AddrGoes(env, m, a);
    }
    forall a | a in m'.mapAddr
      ensures a in m.mapAddr
    {
      AddrComes(env, m, m'.mapAddr[a]);
    }
  }

  /** The integers from `lo` up to `hi`. */
  function Range(lo: int, hi: int): (r: set<int>)
    requires lo <= hi
    ensures |r| == hi - lo && forall i :: i in r <==> lo <= i < hi
    decreases hi - lo
  {
    if lo == hi then {} else Range(lo, hi - 1) + {hi - 1}
  }

  lemma CompleteCounts(env: Env, m: Manager, m': Manager)
    requires Inv(env, m) && forall s :: s in m.newTable ==> m.newTable[s] in m.mapInfo
    requires Complete(env, m, m')
    ensures |m'.mapInfo| == |m.mapInfo| == |Saved(m)|
    ensures TriedDrift(m') == 0 && NewDrift(m') == 0
  {
    ListsAreComplete(env, m);
    assert |Saved(m)| == |m.mapInfo| == m.nNew + m.nTried;
    hide Inv, Saved, SavedTable, SlotsOf, TriedFiled, TriedIds, Counting;
    CountingCounts(m'.mapInfo, m'.newTable, Saved(m), m.nNew);
  }

  lemma CountingCounts(infos: Infos, t: Table, ds: seq<DiskInfo>, nNew: int)
    requires Counting(infos, t, ds, nNew) && 0 <= nNew <= |ds|
    ensures |infos| == |ds| && |TriedIds(infos)| == |ds| - nNew
  {
    hide SlotsOf;
    assert infos.Keys == Range(0, |ds|);
    assert |infos| == |infos.Keys|;
    assert TriedIds(infos) == Range(nNew, |ds|);
  }

  lemma CompleteRestores(env: Env, m: Manager, m': Manager)
    requires Inv(env, m) && forall s :: s in m.newTable ==> m.newTable[s] in m.mapInfo
    requires Complete(env, m, m')
    ensures Restored(m, m')
  {
    AllSeen(env, m);
    forall id | id in m.mapInfo
      ensures Number(m, id) in m'.mapInfo
      ensures m'.mapInfo[Number(m, id)] == Rested(m.mapInfo[id], Number(m, id))
    {
      CompleteEntry(env, m, m', id);
    }
    hide Inv, Number, Saved, SavedTable, NewList, TriedList, SlotsOf;
    CompleteTried(env, m, m');
    CompleteAddrs(env, m, m');
    CompleteCounts(env, m, m');
  }

  // ---------------------------------------------------------------- the invariant afterwards

  lemma CompleteIndexes(env: Env, m: Manager, m': Manager)
    requires Inv(env, m) && forall s :: s in m.newTable ==> m.newTable[s] in m.mapInfo
    requires Complete(env, m, m')
    ensures Indexed(m'.mapInfo, m'.mapAddr, m'.nIdCount) && Shuffled(m'.mapInfo, m'.vRandom)
    ensures TriedPlaced(env, m'.nKey, m'.mapInfo, m'.triedTable)
  {
    hide Inv, Saved, SavedTable, SlotsOf, TriedSlot;
    CompleteCounts(env, m, m');
  }

  lemma CompleteNew(env: Env, m: Manager, m': Manager)
    requires Inv(env, m) && forall s :: s in m.newTable ==> m.newTable[s] in m.mapInfo
    requires Restored(m, m')
    ensures NewPlaced(env, m'.nKey, m'.mapInfo, m'.newTable)
  {
    forall s | s in m'.newTable
      ensures m'.newTable[s] in m'.mapInfo && !m'.mapInfo[m'.newTable[s]].fInTried
      ensures 0 <= s.bucket < NEW_BUCKET_COUNT
      ensures s == NewSlot(env, m'.nKey, m'.mapInfo[m'.newTable[s]].service, s.bucket)
    {
      assert s in m.newTable;
      assert m.newTable[s] in m.mapInfo && !m.mapInfo[m.newTable[s]].fInTried;
      hide Number, NewSlot;
    }
  }

  /** Every entry of the loaded manager is a renumbered entry of the saved one. */
  lemma Preimage(env: Env, m: Manager, m': Manager, i: int)
    requires Inv(env, m) && forall s :: s in m.newTable ==> m.newTable[s] in m.mapInfo
    requires Complete(env, m, m') && i in m'.mapInfo
    ensures 0 <= i < |NewList(m.mapInfo, m.nIdCount)| + |TriedList(m.mapInfo, m.nIdCount)|
    ensures Entry(m, i) in m.mapInfo
    ensures m'.mapInfo[i] == Rested(m.mapInfo[Entry(m, i)], i)
    ensures SlotsOf(m'.newTable, i) == SlotsOf(m.newTable, Entry(m, i))
  {
    CompleteCounts(env, m, m');
    ListsAreComplete(env, m);
    EntryOf(env, m, i);
    hide Inv, Saved, SavedTable, SlotsOf, TriedFiled, Number, Entry;
    CompleteEntry(env, m, m', Entry(m, i));
    AllSeen(env, m);
    SameReferences(env, m, m'.newTable, Entry(m, i));
  }

  lemma CompleteEntries(env: Env, m: Manager, m': Manager)
    requires Inv(env, m) && forall s :: s in m.newTable ==> m.newTable[s] in m.mapInfo
    requires Complete(env, m, m')
    ensures Referenced(m'.mapInfo, m'.newTable) && Anchored(m'.mapInfo, {}) && Timed(m'.mapInfo)
  {
    forall i | i in m'.mapInfo
      ensures m'.mapInfo[i].nRefCount == |SlotsOf(m'.newTable, i)| <= NEW_BUCKETS_PER_ADDRESS
      ensures m'.mapInfo[i].fInTried || m'.mapInfo[i].nRefCount > 0
      ensures m'.mapInfo[i].nLastTry == 0 && m'.mapInfo[i].nLastSuccess >= 0
      ensures m'.mapInfo[i].fInTried ==> m'.mapInfo[i].nLastSuccess > 0
    {
      hide Inv, SlotsOf, Complete, Entry;
      Preimage(env, m, m', i);
      EntryFacts(env, m, Entry(m, i));
    }
  }

  lemma EntryFacts(env: Env, m: Manager, id: int)
    requires Inv(env, m) && id in m.mapInfo
    ensures m.mapInfo[id].nRefCount == |SlotsOf(m.newTable, id)| <= NEW_BUCKETS_PER_ADDRESS
    ensures m.mapInfo[id].fInTried || m.mapInfo[id].nRefCount > 0
    ensures m.mapInfo[id].nLastSuccess >= 0
    ensures m.mapInfo[id].fInTried ==> m.mapInfo[id].nLastSuccess > 0
  {
    hide Indexed, Shuffled, TriedPlaced, NewPlaced;
  }

  lemma CompleteInv(env: Env, m: Manager, m': Manager)
    requires Inv(env, m) && forall s :: s in m.newTable ==> m.newTable[s] in m.mapInfo
    requires Complete(env, m, m')
    ensures Restored(m, m') && Inv(env, m')
  {
    CompleteRestores(env, m, m');
    CompleteIndexes(env, m, m');
    CompleteNew(env, m, m');
    CompleteEntries(env, m, m');
    CompleteCounts(env, m, m');
    hide Complete, Restored, Indexed, Shuffled, TriedPlaced, NewPlaced, Referenced, Anchored, Timed, TriedDrift,
         NewDrift;
  }

  // ---------------------------------------------------------------- loading what was saved

  lemma LoadsCompletely(env: Env, m: Manager, m2: Manager, m3: Manager)
    requires Inv(env, m) && forall s :: s in m.newTable ==> m.newTable[s] in m.mapInfo
    requires m.nNew >= 0 && m.nTried >= 0
    requires Catalogued(m2, Saved(m), m.nNew) && TriedFiled(env, m2.nKey, m2.triedTable, Saved(m), m.nNew)
    requires m2.nKey == m.nKey && m2.nNew == m.nNew && m2.nTried == m.nTried
    requires m2.newTable == map[] && m2.nIdCount == |Saved(m)|
    requires m3 == LoadBuckets(env, m2, Serialize(m).buckets, true)
    ensures Complete(env, m, m3)
  {
    hide Inv, Saved, Restoring, Located, TriedFiled, NewList, TriedList, LoadBuckets;
    RestoreStart(env, m, m2);
    assert Serialize(m).buckets[..NEW_BUCKET_COUNT] == Serialize(m).buckets;
    RestoreBuckets(env, m, m2, NEW_BUCKET_COUNT);
  }

  /** What a saved manager says about itself. */
  lemma SavedHeader(m: Manager)
    ensures var s := Serialize(m);
            && s.keySize == KEY_SIZE && s.key == m.nKey && s.nNew == m.nNew && s.nTried == m.nTried
            && Usable(s) && BucketsRead(s) == NEW_BUCKET_COUNT == |s.buckets|
            && Saved(m) == s.newInfos + s.triedInfos
            && |s.newInfos| == |NewList(m.mapInfo, m.nIdCount)|
            && |s.triedInfos| == |TriedList(m.mapInfo, m.nIdCount)|
  {
  }

  lemma NewsLoad(env: Env, s: Stream, collisions: set<nat>)
    requires s.nNew == |s.newInfos| && Usable(s) && DistinctIps(s.newInfos)
    ensures var m0 := Empty(s.key, collisions).(nNew := s.nNew, nTried := s.nTried);
            var m1 := LoadNew(env, m0, s.newInfos, true).(nIdCount := s.nNew);
            && Catalogued(m1, s.newInfos, |s.newInfos|) && m1.triedTable == map[]
            && m1.newTable == map[] && m1.nKey == s.key && m1.nNew == s.nNew
            && m1.nTried == s.nTried && m1.collisions == collisions
  {
    hide Catalogued, DistinctIps;
    var m0 := Empty(s.key, collisions).(nNew := s.nNew, nTried := s.nTried);
    EmptyCatalogue(m0, |s.newInfos|);
    LoadNewCatalogues(env, m0, s.newInfos, |s.newInfos|);
    CataloguedIgnores(LoadNew(env, m0, s.newInfos, true), s.newInfos, |s.newInfos|, s.nNew);
  }

  lemma EntriesLoad(env: Env, s: Stream, collisions: set<nat>)
    requires s.nNew == |s.newInfos| && s.nTried == |s.triedInfos| && Usable(s)
    requires DistinctIps(s.newInfos + s.triedInfos)
    requires DistinctSlots(env, s.key, s.newInfos + s.triedInfos, |s.newInfos|)
    ensures var m2 := LoadEntries(env, s, collisions);
            var ds := s.newInfos + s.triedInfos;
            && Catalogued(m2, ds, |s.newInfos|)
            && TriedFiled(env, m2.nKey, m2.triedTable, ds, |s.newInfos|)
            && m2.nKey == s.key && m2.nNew == s.nNew && m2.nTried == s.nTried
            && m2.newTable == map[] && m2.nIdCount == |ds| && m2.collisions == collisions
  {
    hide Catalogued, TriedFiled, DistinctIps, DistinctSlots, LoadNew, LoadTried, Usable;
    var news, tried := s.newInfos, s.triedInfos;
    assert news[..s.nNew] == news && tried[..s.nTried] == tried;
    FirstPart(env, s.key, news, tried);
    NewsLoad(env, s, collisions);
    var m0 := Empty(s.key, collisions).(nNew := s.nNew, nTried := s.nTried);
    LoadTriedCatalogues(env, LoadNew(env, m0, news, true).(nIdCount := s.nNew), news, tried);
  }

  // ---------------------------------------------------------------- saved managers fit

  function Code(s: Slot): int {
    s.bucket * BUCKET_SIZE + s.pos
  }

  function Codes(slots: seq<Slot>): set<int> {
    if slots == [] then {} else Codes(slots[..|slots| - 1]) + {Code(slots[|slots| - 1])}
  }

  predicate InTable(slots: seq<Slot>, buckets: nat) {
    forall i :: 0 <= i < |slots| ==>
      0 <= slots[i].bucket < buckets && 0 <= slots[i].pos < BUCKET_SIZE
  }

  predicate AllDifferent(slots: seq<Slot>) {
    forall i, j :: 0 <= i < j < |slots| ==> slots[i] != slots[j]
  }

  lemma CodeInjective(a: Slot, b: Slot)
    requires 0 <= a.pos < BUCKET_SIZE && 0 <= b.pos < BUCKET_SIZE && Code(a) == Code(b)
    ensures a == b
  {
  }

  lemma {:induction false} CodesFit(slots: seq<Slot>, buckets: nat, c: int)
    requires InTable(slots, buckets) && c in Codes(slots)
    ensures 0 <= c < buckets * BUCKET_SIZE
    ensures exists i :: 0 <= i < |slots| && Code(slots[i]) == c
  {
    var n := |slots| - 1;
    if c == Code(slots[n]) {
      assert slots[n].bucket * BUCKET_SIZE <= (buckets - 1) * BUCKET_SIZE;
    } else {
      CodesFit(slots[..n], buckets, c);
      var i :| 0 <= i < |slots[..n]| && Code(slots[..n][i]) == c;
      assert Code(slots[i]) == c;
    }
  }

  lemma {:induction false} CodesCount(slots: seq<Slot>, buckets: nat)
    requires InTable(slots, buckets) && AllDifferent(slots)
    ensures |Codes(slots)| == |slots|
  {
    if slots != [] {
      var n := |slots| - 1;
      CodesCount(slots[..n], buckets);
      if Code(slots[n]) in Codes(slots[..n]) {
        CodesFit(slots[..n], buckets, Code(slots[n]));
        var i :| 0 <= i < |slots[..n]| && Code(slots[..n][i]) == Code(slots[n]);
        CodeInjective(slots[i], slots[n]);
        assert false;
      }
    }
  }

  lemma SlotsBounded(slots: seq<Slot>, buckets: nat)
    requires InTable(slots, buckets) && AllDifferent(slots)
    ensures |slots| <= buckets * BUCKET_SIZE
  {
    CodesCount(slots, buckets);
    var codes, all := Codes(slots), Range(0, buckets * BUCKET_SIZE);
    forall c | c in codes
      ensures c in all
    {
      CodesFit(slots, buckets, c);
    }
    assert all == codes + (all - codes);
  }

  ghost function Pick(slots: set<Slot>): (s: Slot)
    requires slots != {}
    ensures s in slots
  {
    var s :| s in slots; s
  }

  /** No table can hold more entries than it has slots. */
  lemma ManagersFit(env: Env, m: Manager)
    requires Inv(env, m)
    ensures m.nNew <= NEW_BUCKET_COUNT * BUCKET_SIZE
    ensures m.nTried <= TRIED_BUCKET_COUNT * BUCKET_SIZE
  {
    ListsAreComplete(env, m);
    NewFits(env, m);
    TriedFits(env, m);
  }

  lemma NewFits(env: Env, m: Manager)
    requires Inv(env, m)
    ensures |NewList(m.mapInfo, m.nIdCount)| <= NEW_BUCKET_COUNT * BUCKET_SIZE
  {
    var ids := NewList(m.mapInfo, m.nIdCount);
    NewListIn(m.mapInfo, m.nIdCount);
    forall i | 0 <= i < |ids|
      ensures SlotsOf(m.newTable, ids[i]) != {}
    {
      EntryFacts(env, m, ids[i]);
    }
    var slots := seq(|ids|, i requires 0 <= i < |ids| => Pick(SlotsOf(m.newTable, ids[i])));
    forall i | 0 <= i < |slots|
      ensures slots[i] in m.newTable && m.newTable[slots[i]] == ids[i]
      ensures 0 <= slots[i].bucket < NEW_BUCKET_COUNT && 0 <= slots[i].pos < BUCKET_SIZE
    {
      assert slots[i] in SlotsOf(m.newTable, ids[i]);
      NewSlotBounds(env, m, slots[i]);
    }
    forall i, j | 0 <= i < j < |slots|
      ensures slots[i] != slots[j]
    {
      NewListRank(m.mapInfo, m.nIdCount, i);
      NewListRank(m.mapInfo, m.nIdCount, j);
    }
    hide Inv, NewList, SlotsOf;
    SlotsBounded(slots, NEW_BUCKET_COUNT);
  }

  lemma NewSlotBounds(env: Env, m: Manager, s: Slot)
    requires Inv(env, m) && s in m.newTable
    ensures 0 <= s.bucket < NEW_BUCKET_COUNT && 0 <= s.pos < BUCKET_SIZE
  {
    hide Indexed, Shuffled, TriedPlaced, Referenced;
    assert s == NewSlot(env, m.nKey, m.mapInfo[m.newTable[s]].service, s.bucket);
  }

  lemma TriedFits(env: Env, m: Manager)
    requires Inv(env, m)
    ensures |TriedList(m.mapInfo, m.nIdCount)| <= TRIED_BUCKET_COUNT * BUCKET_SIZE
  {
    var ids := TriedList(m.mapInfo, m.nIdCount);
    TriedListIn(m.mapInfo, m.nIdCount);
    var slots := seq(|ids|, i requires 0 <= i < |ids| => TriedSlot(env, m.nKey, m.mapInfo[ids[i]].service));
    forall i | 0 <= i < |slots|
      ensures slots[i] in m.triedTable && m.triedTable[slots[i]] == ids[i]
    {
      WhereIs(env, m, ids[i]);
    }
    forall i, j | 0 <= i < j < |slots|
      ensures slots[i] != slots[j]
    {
      TriedListRank(m.mapInfo, m.nIdCount, i);
      TriedListRank(m.mapInfo, m.nIdCount, j);
    }
    hide Inv, TriedList;
    SlotsBounded(slots, TRIED_BUCKET_COUNT);
  }

  /** Loading a saved manager yields the same manager up to the numbering of its entries, the
      order of vRandom and the fields kept in memory only; and it is consistent again. */
  lemma RoundTrip(env: Env, m: Manager, collisions: set<nat>)
    requires Inv(env, m)
    ensures var r := Unserialize(env, Serialize(m), collisions);
            && r.Loaded? && Restored(m, r.m) && Inv(env, r.m)
            && r.m.collisions == collisions
  {
    hide Inv, Serialize, Saved, Usable, BucketsRead, Complete, Restored, Catalogued, TriedFiled,
         DistinctIps, DistinctSlots, LoadEntries, LoadBuckets, Prune, NewList, TriedList;
    ManagersFit(env, m);
    Holders(env, m);
    ListsAreComplete(env, m);
    SavedHeader(m);
    SavedIsDistinct(env, m);
    var s := Serialize(m);
    EntriesLoad(env, s, collisions);
    var m2 := LoadEntries(env, s, collisions);
    assert s.buckets[..NEW_BUCKET_COUNT] == s.buckets;
    var m3 := LoadBuckets(env, m2, s.buckets, true);
    LoadsCompletely(env, m, m2, m3);
    CompleteInv(env, m, m3);
    AnchoredPrunesNothing(env, m3);
    BucketsKeep(env, m2, s.buckets, true);
  }

  lemma EmptyCatalogue(m: Manager, nNew: nat)
    requires m.mapInfo == map[] && m.mapAddr == map[] && m.vRandom == []
    ensures Catalogued(m, [], nNew)
  {
  }

  lemma CataloguedIgnores(m: Manager, ds: seq<DiskInfo>, nNew: nat, nIdCount: int)
    requires Catalogued(m, ds, nNew)
    ensures Catalogued(m.(nIdCount := nIdCount), ds, nNew)
  {
  }

  lemma FirstPart(env: Env, key: nat, a: seq<DiskInfo>, b: seq<DiskInfo>)
    requires DistinctIps(a + b)
    ensures DistinctIps(a)
  {
    forall i, j | 0 <= i < j < |a|
      ensures a[i].service.ip != a[j].service.ip
    {
      assert (a + b)[i].service.ip != (a + b)[j].service.ip;
    }
  }

  lemma AnchoredPrunesNothing(env: Env, m: Manager)
    requires Inv(env, m)
    ensures Prune(m, m.nIdCount) == m
  {
    forall id | id in m.mapInfo
      ensures m.mapInfo[id].fInTried || m.mapInfo[id].nRefCount != 0
    {
      EntryFacts(env, m, id);
    }
    hide Inv;
    PruneNothing(m, m.nIdCount);
  }

  lemma {:induction false} BucketKeeps(env: Env, m: Manager, b: int, indices: seq<int>, usable: bool)
    ensures LoadBucket(env, m, b, indices, usable).collisions == m.collisions
  {
    if indices != [] { BucketKeeps(env, m, b, indices[..|indices| - 1], usable); }
  }

  lemma {:induction false} BucketsKeep(env: Env, m: Manager, buckets: seq<seq<int>>, usable: bool)
    ensures LoadBuckets(env, m, buckets, usable).collisions == m.collisions
  {
    if buckets != [] {
      var n := |buckets| - 1;
      BucketsKeep(env, m, buckets[..n], usable);
      BucketKeeps(env, LoadBuckets(env, m, buckets[..n], usable), n, buckets[n], usable);
    }
  }
}
