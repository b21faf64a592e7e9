/** Serialize and Unserialize as the program runs them: loops over entries and buckets that fill
    and drain the manager's tables, proved against the functions of AddrManDisk. */
module AddrManFile {
  import opened Arithmetic
  import opened AddrManModel
  import opened AddrManOps
  import opened AddrManCalls
  import opened AddrManDisk
  import opened AddrManLoad
  import opened AddrMan

  // ---------------------------------------------------------------- writing

  lemma ListedBelow(env: Env, m: Manager, id: int)
    requires Inv(env, m) && 0 <= id < m.nIdCount && id in m.mapInfo
    ensures m.mapInfo[id].nRefCount != 0 ==> |NewList(m.mapInfo, id)| < m.nNew
    ensures m.mapInfo[id].fInTried ==> |TriedList(m.mapInfo, id)| < m.nTried
  {
    ListsAreComplete(env, m);
    hide Inv;
    if m.mapInfo[id].nRefCount != 0 { NewListAt(m.mapInfo, m.nIdCount, id); }
    if m.mapInfo[id].fInTried { TriedListAt(m.mapInfo, m.nIdCount, id); }
  }

  /** The referenced entries, and for every id how many of them have smaller ids. */
  method WriteNew(man: AddressManager) returns (infos: seq<DiskInfo>, unknown: map<int, int>)
    requires Inv(man.env, man.State())
    ensures infos == Serialize(man.State()).newInfos
    ensures forall id :: id in man.mapInfo ==>
      id in unknown && unknown[id] == |NewList(man.mapInfo, id)|
  {
    hide Core, TriedDrift, NewDrift, TableOf;
    ghost var m := man.State();
    infos, unknown := [], map[];
    var nIds := 0;
    NewListIn(m.mapInfo, m.nIdCount);
    IdBounds(man.env, m);
    for id := 0 to man.nIdCount
      invariant nIds == |infos| == |NewList(m.mapInfo, id)|
      invariant forall i :: 0 <= i < |infos| ==>
        NewList(m.mapInfo, id)[i] in m.mapInfo && infos[i] == ToDisk(m.mapInfo[NewList(m.mapInfo, id)[i]])
      invariant forall j :: j in m.mapInfo && j < id ==> j in unknown && unknown[j] == |NewList(m.mapInfo, j)|
    {
      if id in man.mapInfo {
        unknown := unknown[id := nIds];
        var info := man.mapInfo[id];
        if info.nRefCount != 0 {
          ListedBelow(man.env, m, id);
          assert nIds != man.nNew;
          infos := infos + [ToDisk(info)];
          nIds := nIds + 1;
        }
      }
    }
  }

  lemma IdBounds(env: Env, m: Manager)
    requires Inv(env, m)
    ensures m.nIdCount >= 0 && forall id :: id in m.mapInfo ==> 0 <= id < m.nIdCount
  {
  }

  method WriteTried(man: AddressManager) returns (infos: seq<DiskInfo>)
    requires Inv(man.env, man.State())
    ensures infos == Serialize(man.State()).triedInfos
  {
    hide Core, TriedDrift, NewDrift, TableOf;
    ghost var m := man.State();
    infos := [];
    var nIds := 0;
    TriedListIn(m.mapInfo, m.nIdCount);
    IdBounds(man.env, m);
    for id := 0 to man.nIdCount
      invariant nIds == |infos| == |TriedList(m.mapInfo, id)|
      invariant forall i :: 0 <= i < |infos| ==>
        TriedList(m.mapInfo, id)[i] in m.mapInfo && infos[i] == ToDisk(m.mapInfo[TriedList(m.mapInfo, id)[i]])
    {
      if id in man.mapInfo && man.mapInfo[id].fInTried {
        ListedBelow(man.env, m, id);
        assert nIds != man.nTried;
        infos := infos + [ToDisk(man.mapInfo[id])];
        nIds := nIds + 1;
      }
    }
  }

  method WriteBucket(man: AddressManager, b: int, unknown: map<int, int>) returns (indices: seq<int>)
    requires man.Shaped() && Inv(man.env, man.State()) && 0 <= b < NEW_BUCKET_COUNT
    requires forall id :: id in man.mapInfo ==>
      id in unknown && unknown[id] == |NewList(man.mapInfo, id)|
    ensures indices == BucketList(man.State(), b, BUCKET_SIZE)
  {
    hide Core, TriedDrift, NewDrift, TableOf, NewList;
    indices := [];
    for i := 0 to BUCKET_SIZE
      invariant indices == BucketList(man.State(), b, i)
    {
      TableAt(man.vvNew, b, i);
      if man.vvNew[b, i] != -1 {
        Holders(man.env, man.State());
        indices := indices + [unknown[man.vvNew[b, i]]];
      }
    }
  }

  method Save(man: AddressManager) returns (s: Stream)
    requires man.Shaped() && Inv(man.env, man.State())
    ensures s == Serialize(man.State())
  {
    hide Core, TriedDrift, NewDrift, TableOf, NewList, TriedList, BucketList;
    var newInfos, unknown := WriteNew(man);
    var triedInfos := WriteTried(man);
    var buckets: seq<seq<int>> := [];
    for b := 0 to NEW_BUCKET_COUNT
      invariant |buckets| == b
      invariant forall i :: 0 <= i < b ==> buckets[i] == BucketList(man.State(), i, BUCKET_SIZE)
    {
      var indices := WriteBucket(man, b, unknown);
      buckets := buckets + [indices];
    }
    s := Stream(VERSION, KEY_SIZE, man.nKey, man.nNew, man.nTried, FlipBit30(NEW_BUCKET_COUNT),
                newInfos, triedInfos, buckets);
    assert buckets == Serialize(man.State()).buckets;
  }

  // ---------------------------------------------------------------- reading

  method ReadNew(man: AddressManager, id: int, d: DiskInfo, usable: bool)
    requires man.Shaped() && id >= 0 && Dealt(man.State(), id)
    modifies man, man.vvNew
    ensures man.State() == LoadNewOne(man.env, old(man.State()), id, d, usable)
    ensures Dealt(man.State(), id + 1)
  {
    hide TableOf, Position, NewBucket;
    EnrolDeals(man.State(), id, d, false);
    man.mapInfo := man.mapInfo[id := FromDisk(d, |man.vRandom|, false)];
    man.mapAddr := man.mapAddr[d.service.ip := id];
    man.vRandom := man.vRandom + [id];
    ghost var m := man.State();
    if !usable {
      var info := man.mapInfo[id];
      var b := NewBucket(man.env, man.nKey, info.service, info.source);
      var p := Position(man.env, man.nKey, info.service, true, b);
      TableAt(man.vvNew, b, p);
      if man.vvNew[b, p] == -1 {
        SetRefDeals(m, id, 1, m.newTable[Slot(b, p) := id], id + 1);
        SetSlot(man.vvNew, b, p, id);
        man.mapInfo := man.mapInfo[id := info.(nRefCount := info.nRefCount + 1)];
      }
    }
  }

  method ReadTried(man: AddressManager, d: DiskInfo)
    requires man.Shaped() && Dealt(man.State(), man.nIdCount)
    modifies man, man.vvTried
    ensures man.State() == LoadTriedOne(man.env, old(man.State()), d)
    ensures Dealt(man.State(), man.nIdCount)
  {
    hide TableOf, Position, TriedBucket;
    var b := TriedBucket(man.env, man.nKey, d.service);
    var p := Position(man.env, man.nKey, d.service, false, b);
    TableAt(man.vvTried, b, p);
    if man.vvTried[b, p] == -1 {
      EnrolDeals(man.State(), man.nIdCount, d, true);
      man.mapInfo := man.mapInfo[man.nIdCount := FromDisk(d, |man.vRandom|, true)];
      man.mapAddr := man.mapAddr[d.service.ip := man.nIdCount];
      man.vRandom := man.vRandom + [man.nIdCount];
      SetSlot(man.vvTried, b, p, man.nIdCount);
      man.nIdCount := man.nIdCount + 1;
    } else {
      man.nTried := man.nTried - 1;
    }
  }

  method ReadIndex(man: AddressManager, b: int, index: int, usable: bool)
    requires man.Shaped() && b >= 0 && (usable ==> b < NEW_BUCKET_COUNT)
    requires Dealt(man.State(), man.nIdCount)
    modifies man, man.vvNew
    ensures man.State() == LoadIndex(man.env, old(man.State()), b, index, usable)
    ensures Dealt(man.State(), man.nIdCount)
  {
    hide TableOf, Position;
    if usable && 0 <= index < man.nNew && index in man.mapInfo {
      var info := man.mapInfo[index];
      var p := Position(man.env, man.nKey, info.service, true, b);
      TableAt(man.vvNew, b, p);
      if man.vvNew[b, p] == -1 && info.nRefCount < NEW_BUCKETS_PER_ADDRESS {
        ghost var m := man.State();
        SetRefDeals(m, index, info.nRefCount + 1, m.newTable[Slot(b, p) := index], man.nIdCount);
        man.mapInfo := man.mapInfo[index := info.(nRefCount := info.nRefCount + 1)];
        SetSlot(man.vvNew, b, p, index);
      }
    }
  }

  method ReadBuckets(man: AddressManager, buckets: seq<seq<int>>, usable: bool)
    requires man.Shaped() && (usable ==> |buckets| <= NEW_BUCKET_COUNT)
    requires Dealt(man.State(), man.nIdCount)
    modifies man, man.vvNew
    ensures man.State() == LoadBuckets(man.env, old(man.State()), buckets, usable)
    ensures Dealt(man.State(), man.nIdCount)
  {
    hide TableOf, LoadIndex, Dealt;
    ghost var m := man.State();
    for b := 0 to |buckets|
      invariant man.State() == LoadBuckets(man.env, m, buckets[..b], usable)
      invariant Dealt(man.State(), man.nIdCount)
    {
      ghost var m1 := man.State();
      var indices := buckets[b];
      for n := 0 to |indices|
        invariant man.State() == LoadBucket(man.env, m1, b, indices[..n], usable)
        invariant Dealt(man.State(), man.nIdCount)
      {
        ReadIndex(man, b, indices[n], usable);
        assert indices[..n + 1][..n] == indices[..n];
      }
      assert indices[..|indices|] == indices;
      assert buckets[..b + 1][..b] == buckets[..b];
    }
    assert buckets[..|buckets|] == buckets;
  }

  method PruneAll(man: AddressManager)
    requires man.Shaped() && Dealt(man.State(), man.nIdCount)
    modifies man
    ensures man.State() == Prune(old(man.State()), old(man.nIdCount))
  {
    hide TableOf, Delete;
    ghost var m := man.State();
    var last := if man.nIdCount < 0 then 0 else man.nIdCount;
    for id := 0 to last
      invariant man.State() == Prune(m, id) && Dealt(man.State(), last)
    {
      if id in man.mapInfo && !man.mapInfo[id].fInTried && man.mapInfo[id].nRefCount == 0 {
        DeleteDeals(man.State(), id, last);
        man.Delete(id);
      }
    }
  }

  method ReadNews(man: AddressManager, news: seq<DiskInfo>, usable: bool)
    requires man.Shaped() && Dealt(man.State(), 0)
    modifies man, man.vvNew
    ensures man.State() == LoadNew(man.env, old(man.State()), news, usable)
    ensures Dealt(man.State(), |news|)
  {
    hide TableOf, LoadNewOne, Dealt;
    ghost var m := man.State();
    for n := 0 to |news|
      invariant man.State() == LoadNew(man.env, m, news[..n], usable) && Dealt(man.State(), n)
    {
      assert news[..n + 1][..n] == news[..n];
      ReadNew(man, n, news[n], usable);
    }
    assert news[..|news|] == news;
  }

  method ReadTrieds(man: AddressManager, tried: seq<DiskInfo>)
    requires man.Shaped() && Dealt(man.State(), man.nIdCount)
    modifies man, man.vvTried
    ensures man.State() == LoadTried(man.env, old(man.State()), tried)
    ensures Dealt(man.State(), man.nIdCount)
  {
    hide TableOf, LoadTriedOne, Dealt;
    ghost var m := man.State();
    for n := 0 to |tried|
      invariant man.State() == LoadTried(man.env, m, tried[..n])
      invariant Dealt(man.State(), man.nIdCount)
    {
      assert tried[..n + 1][..n] == tried[..n];
      ReadTried(man, tried[n]);
    }
    assert tried[..|tried|] == tried;
  }

  method ReadEntries(man: AddressManager, s: Stream, key: nat)
    requires man.Shaped() && s.nNew <= |s.newInfos| && s.nTried <= |s.triedInfos|
    modifies man, man.vvTried, man.vvNew
    ensures man.State() == LoadEntries(man.env, s, old(man.triedCollisions))
    ensures Dealt(man.State(), man.nIdCount)
  {
    hide TableOf, LoadTried, Usable;
    man.Clear(key);
    man.nKey := s.key;
    man.nNew := s.nNew;
    man.nTried := s.nTried;
    ReadNews(man, s.newInfos[..Max(0, s.nNew)], Usable(s));
    man.nIdCount := s.nNew;
    ReadTrieds(man, s.triedInfos[..Max(0, s.nTried)]);
  }

  /** Load a stream.  The manager is left half loaded when the stream is corrupt. */
  method Load(man: AddressManager, s: Stream, key: nat) returns (failed: bool, why: Corruption)
    requires man.Shaped()
    modifies man, man.vvTried, man.vvNew
    ensures var r := Unserialize(man.env, s, old(man.triedCollisions));
            if failed then r == Corrupt(why) else r == Loaded(man.State())
  {
    hide TableOf, LoadEntries, LoadBuckets, Prune, Usable, BucketsRead, Dealt;
    why := EndOfData;
    man.Clear(key);
    if s.keySize != KEY_SIZE {
      return true, BadKeySize;
    }
    if s.nNew > NEW_BUCKET_COUNT * BUCKET_SIZE {
      return true, TooManyNew;
    }
    if s.nTried > TRIED_BUCKET_COUNT * BUCKET_SIZE {
      return true, TooManyTried;
    }
    if |s.newInfos| < s.nNew || |s.triedInfos| < s.nTried || |s.buckets| < BucketsRead(s) {
      return true, EndOfData;
    }
    ReadEntries(man, s, key);
    UsableBuckets(s);
    ReadBuckets(man, s.buckets[..Max(0, BucketsRead(s))], Usable(s));
    PruneAll(man);
    return false, why;
  }

  lemma UsableBuckets(s: Stream)
    ensures Usable(s) ==> BucketsRead(s) == NEW_BUCKET_COUNT
  {
  }
}
