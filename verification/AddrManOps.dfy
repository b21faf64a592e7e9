/** The steps the address manager is built from, each with what it keeps of the invariant.
    An entry between two steps is in limbo: in neither table, and possibly in neither counter. */
module AddrManOps {
  import opened AddrManModel

  // ---------------------------------------------------------------- set and map counting

  lemma TriedIdsInsert(infos: Infos, id: int, info: Info)
    ensures TriedIds(infos[id := info])
         == if info.fInTried then TriedIds(infos) + {id} else TriedIds(infos) - {id}
  {
  }

  lemma CountInsert(infos: Infos, id: int, info: Info)
    ensures |infos[id := info]| == |infos| + (if id in infos then 0 else 1)
    ensures |TriedIds(infos[id := info])|
         == |TriedIds(infos)| + (if info.fInTried then 1 else 0)
            - (if id in infos && infos[id].fInTried then 1 else 0)
  {
    TriedIdsInsert(infos, id, info);
    assert infos[id := info].Keys == infos.Keys + {id};
  }

  lemma CountRemove(infos: Infos, id: int)
    requires id in infos && !infos[id].fInTried
    ensures |infos - {id}| == |infos| - 1
    ensures TriedIds(infos - {id}) == TriedIds(infos)
  {
    assert (infos - {id}).Keys == infos.Keys - {id};
  }

  lemma SlotsInsert(t: Table, s: Slot, id: int, j: int)
    requires s !in t
    ensures |SlotsOf(t[s := id], j)| == |SlotsOf(t, j)| + (if j == id then 1 else 0)
  {
    if j == id {
      assert SlotsOf(t[s := id], j) == SlotsOf(t, j) + {s};
    } else {
      assert SlotsOf(t[s := id], j) == SlotsOf(t, j);
    }
  }

  lemma SlotsRemove(t: Table, s: Slot, j: int)
    requires s in t
    ensures |SlotsOf(t - {s}, j)| == |SlotsOf(t, j)| - (if j == t[s] then 1 else 0)
  {
    if j == t[s] {
      assert SlotsOf(t - {s}, j) == SlotsOf(t, j) - {s};
    } else {
      assert SlotsOf(t - {s}, j) == SlotsOf(t, j);
    }
  }

  /** The counters of `m'` are as exact as those of `m`, with `more` more entries in transit. */
  predicate SameDrift(m: Manager, m': Manager, more: int) {
    TriedDrift(m') == TriedDrift(m) && NewDrift(m') == NewDrift(m) + more
  }

  /** The same entry up to its place in vRandom. */
  predicate SameButPlace(a: Info, b: Info) {
    a.(nRandomPos := 0) == b.(nRandomPos := 0)
  }

  /** `infos'` keeps every entry of `infos` but those of `gone`, up to places in vRandom. */
  predicate KeepsOthers(infos: Infos, infos': Infos, gone: set<int>) {
    forall id :: id in infos && id !in gone ==>
      id in infos' && SameButPlace(infos[id], infos'[id])
  }

  // ---------------------------------------------------------------- creating an entry

  function NewInfo(a: Address, src: NetAddr, place: int): Info {
    Info(a.service, a.flags, a.nTime, src, 0, 0, 0, 0, 0, false, place)
  }

  function Create(m: Manager, a: Address, src: NetAddr): Manager {
    m.(nIdCount := m.nIdCount + 1,
       mapInfo := m.mapInfo[m.nIdCount := NewInfo(a, src, |m.vRandom|)],
       mapAddr := m.mapAddr[a.service.ip := m.nIdCount],
       vRandom := m.vRandom + [m.nIdCount])
  }

  lemma CreateIndexes(infos: Infos, addrs: map<NetAddr, int>, n: int, info: Info)
    requires Indexed(infos, addrs, n) && info.service.ip !in addrs
    ensures Indexed(infos[n := info], addrs[info.service.ip := n], n + 1)
  {
  }

  lemma CreateShuffles(infos: Infos, v: seq<int>, n: int, info: Info)
    requires Shuffled(infos, v) && n !in infos && info.nRandomPos == |v|
    ensures Shuffled(infos[n := info], v + [n])
  {
  }

  /** Adding an entry that is in no table disturbs neither table. */
  lemma CreateTables(env: Env, m: Manager, n: int, info: Info)
    requires Core(env, m, {}) && n !in m.mapInfo && !info.fInTried && info.nRefCount == 0
    ensures TriedPlaced(env, m.nKey, m.mapInfo[n := info], m.triedTable)
    ensures NewPlaced(env, m.nKey, m.mapInfo[n := info], m.newTable)
    ensures Referenced(m.mapInfo[n := info], m.newTable)
    ensures Anchored(m.mapInfo[n := info], {n})
  {
    hide Indexed, Shuffled;
    assert SlotsOf(m.newTable, n) == {};
  }

  lemma CreateKeeps(env: Env, m: Manager, a: Address, src: NetAddr)
    requires Core(env, m, {}) && a.service.ip !in m.mapAddr
    ensures Core(env, Create(m, a, src), {m.nIdCount})
    ensures SameDrift(m, Create(m, a, src), 1)
  {
    hide Shuffled, TriedPlaced, NewPlaced, Referenced, Anchored, TriedIds;
    var info := NewInfo(a, src, |m.vRandom|);
    assert m.nIdCount !in m.mapInfo;
    hide Indexed;
    CountInsert(m.mapInfo, m.nIdCount, info);
    CreateIndexes(m.mapInfo, m.mapAddr, m.nIdCount, info);
    CreateShuffles(m.mapInfo, m.vRandom, m.nIdCount, info);
    CreateTables(env, m, m.nIdCount, info);
  }

  // ---------------------------------------------------------------- vRandom

  function SetPlace(infos: Infos, id: int, place: int): Infos
    requires id in infos
  {
    infos[id := infos[id].(nRandomPos := place)]
  }

  function SwapPlaces(infos: Infos, v: seq<int>, i: int, j: int): Infos
    requires 0 <= i < |v| && 0 <= j < |v| && v[i] in infos && v[j] in infos
  {
    SetPlace(SetPlace(infos, v[i], j), v[j], i)
  }

  function SwapRandom(m: Manager, i: int, j: int): Manager
    requires 0 <= i < |m.vRandom| && m.vRandom[i] in m.mapInfo
    requires 0 <= j < |m.vRandom| && m.vRandom[j] in m.mapInfo
  {
    if i == j then m
    else
      m.(mapInfo := SwapPlaces(m.mapInfo, m.vRandom, i, j),
         vRandom := m.vRandom[i := m.vRandom[j]][j := m.vRandom[i]])
  }

  lemma SwapPlacesShuffles(infos: Infos, v: seq<int>, i: int, j: int)
    requires Shuffled(infos, v) && 0 <= i < |v| && 0 <= j < |v| && i != j
    ensures Shuffled(SwapPlaces(infos, v, i, j), v[i := v[j]][j := v[i]])
    ensures SwapPlaces(infos, v, i, j).Keys == infos.Keys
    ensures KeepsOthers(infos, SwapPlaces(infos, v, i, j), {})
  {
    var infos', v' := SwapPlaces(infos, v, i, j), v[i := v[j]][j := v[i]];
    assert v[i] != v[j];
    assert infos'.Keys == infos.Keys;
    assert |infos'| == |infos'.Keys| && |infos| == |infos.Keys|;
    forall id | id in infos'
      ensures 0 <= infos'[id].nRandomPos < |v'| && v'[infos'[id].nRandomPos] == id
    {
      assert infos[id].nRandomPos == i <==> id == v[i];
      assert infos[id].nRandomPos == j <==> id == v[j];
    }
  }

  /** `m'` differs from `m` in nothing but the order of vRandom. */
  predicate Relocated(m: Manager, m': Manager) {
    && m'.mapInfo.Keys == m.mapInfo.Keys && KeepsOthers(m.mapInfo, m'.mapInfo, {})
    && m' == m.(mapInfo := m'.mapInfo, vRandom := m'.vRandom)
  }

  lemma RelocatedCounts(m: Manager, m': Manager)
    requires Relocated(m, m')
    ensures |m'.mapInfo| == |m.mapInfo| && TriedIds(m'.mapInfo) == TriedIds(m.mapInfo)
  {
    assert |m'.mapInfo| == |m'.mapInfo.Keys| && |m.mapInfo| == |m.mapInfo.Keys|;
    forall id
      ensures id in TriedIds(m'.mapInfo) <==> id in TriedIds(m.mapInfo)
    {
      if id in m.mapInfo { assert SameButPlace(m.mapInfo[id], m'.mapInfo[id]); }
    }
  }

  lemma RelocatedCore(env: Env, m: Manager, m': Manager, limbo: set<int>)
    requires Core(env, m, limbo) && Relocated(m, m') && Shuffled(m'.mapInfo, m'.vRandom)
    ensures Core(env, m', limbo)
  {
    forall id | id in m'.mapInfo
      ensures SameButPlace(m.mapInfo[id], m'.mapInfo[id])
    {
    }
  }

  lemma SwapRandomKeeps(env: Env, m: Manager, i: int, j: int, limbo: set<int>)
    requires Core(env, m, limbo) && 0 <= i < |m.vRandom| && 0 <= j < |m.vRandom|
    ensures Core(env, SwapRandom(m, i, j), limbo) && Relocated(m, SwapRandom(m, i, j))
  {
    if i != j {
      SwapPlacesShuffles(m.mapInfo, m.vRandom, i, j);
      RelocatedCore(env, m, SwapRandom(m, i, j), limbo);
    }
  }

  // ---------------------------------------------------------------- deleting an entry

  function DropLast(m: Manager, id: int): Manager
    requires |m.vRandom| > 0 && id in m.mapInfo
  {
    m.(vRandom := m.vRandom[..|m.vRandom| - 1],
       mapAddr := m.mapAddr - {m.mapInfo[id].service.ip},
       mapInfo := m.mapInfo - {id},
       nNew := m.nNew - 1)
  }

  lemma DropIndexes(infos: Infos, addrs: map<NetAddr, int>, n: int, id: int)
    requires Indexed(infos, addrs, n) && id in infos
    ensures Indexed(infos - {id}, addrs - {infos[id].service.ip}, n)
  {
  }

  lemma DropShuffles(infos: Infos, v: seq<int>, id: int)
    requires Shuffled(infos, v) && id in infos && infos[id].nRandomPos == |v| - 1
    ensures Shuffled(infos - {id}, v[..|v| - 1])
  {
    var infos', v' := infos - {id}, v[..|v| - 1];
    assert infos'.Keys == infos.Keys - {id};
    forall j | j in infos'
      ensures infos'[j].nRandomPos < |v'|
    {
      assert v[infos[j].nRandomPos] == j && v[|v| - 1] == id;
    }
    assert forall k :: 0 <= k < |v'| ==> v'[k] == v[k];
  }

  /** Removing an entry that is in no table disturbs neither table. */
  lemma DropTables(env: Env, m: Manager, id: int, limbo: set<int>)
    requires Core(env, m, limbo) && id in m.mapInfo
    requires !m.mapInfo[id].fInTried && m.mapInfo[id].nRefCount == 0
    ensures TriedPlaced(env, m.nKey, m.mapInfo - {id}, m.triedTable)
    ensures NewPlaced(env, m.nKey, m.mapInfo - {id}, m.newTable)
    ensures Referenced(m.mapInfo - {id}, m.newTable)
    ensures Anchored(m.mapInfo - {id}, limbo - {id})
  {
    hide Indexed, Shuffled;
    assert SlotsOf(m.newTable, id) == {};
    forall s | s in m.newTable
      ensures m.newTable[s] != id
    {
      assert m.newTable[s] == id ==> s in SlotsOf(m.newTable, id);
    }
  }

  lemma DropLastKeeps(env: Env, m: Manager, id: int, limbo: set<int>)
    requires Core(env, m, limbo) && id in m.mapInfo
    requires !m.mapInfo[id].fInTried && m.mapInfo[id].nRefCount == 0
    requires m.mapInfo[id].nRandomPos == |m.vRandom| - 1 >= 0
    ensures Core(env, DropLast(m, id), limbo - {id})
    ensures SameDrift(m, DropLast(m, id), 0)
  {
    hide Indexed, Shuffled, TriedPlaced, NewPlaced, Referenced, Anchored;
    DropIndexes(m.mapInfo, m.mapAddr, m.nIdCount, id);
    DropShuffles(m.mapInfo, m.vRandom, id);
    DropTables(env, m, id, limbo);
    CountRemove(m.mapInfo, id);
  }

  /** What Delete asserts before it starts. */
  predicate Deletable(m: Manager, id: int) {
    && Shuffled(m.mapInfo, m.vRandom)
    && id in m.mapInfo && !m.mapInfo[id].fInTried && m.mapInfo[id].nRefCount == 0
  }

  /** Bring an entry to the end of vRandom. */
  function ToEnd(m: Manager, id: int): (m1: Manager)
    requires Deletable(m, id)
    ensures id in m1.mapInfo && |m1.vRandom| > 0
  {
    SwapRandom(m, m.mapInfo[id].nRandomPos, |m.vRandom| - 1)
  }

  function Delete(m: Manager, id: int): Manager
    requires Deletable(m, id)
  {
    DropLast(ToEnd(m, id), id)
  }

  lemma ToEndKeeps(env: Env, m: Manager, id: int, limbo: set<int>)
    requires Core(env, m, limbo) && Deletable(m, id)
    ensures Core(env, ToEnd(m, id), limbo) && Relocated(m, ToEnd(m, id))
    ensures SameDrift(m, ToEnd(m, id), 0)
    ensures ToEnd(m, id).mapInfo[id].nRandomPos == |ToEnd(m, id).vRandom| - 1
  {
    hide Core, Shuffled, SwapRandom, TriedIds;
    EndPlace(m, id);
    SwapRandomKeeps(env, m, m.mapInfo[id].nRandomPos, |m.vRandom| - 1, limbo);
    RelocatedCounts(m, ToEnd(m, id));
  }

  lemma EndPlace(m: Manager, id: int)
    requires Deletable(m, id)
    ensures 0 <= m.mapInfo[id].nRandomPos < |m.vRandom|
    ensures ToEnd(m, id).mapInfo[id].nRandomPos == |ToEnd(m, id).vRandom| - 1
  {
  }

  lemma DeleteKeeps(env: Env, m: Manager, id: int, limbo: set<int>)
    requires Core(env, m, limbo) && Deletable(m, id)
    ensures var m' := Delete(m, id);
            && Core(env, m', limbo - {id})
            && m'.newTable == m.newTable && m'.triedTable == m.triedTable
            && m'.nKey == m.nKey && m'.nIdCount == m.nIdCount
            && m'.nLastGood == m.nLastGood && m'.collisions == m.collisions
            && m'.mapInfo.Keys == m.mapInfo.Keys - {id}
            && KeepsOthers(m.mapInfo, m'.mapInfo, {id})
            && SameDrift(m, m', 0)
  {
    hide Core, Shuffled, ToEnd, TriedDrift, NewDrift;
    ToEndKeeps(env, m, id, limbo);
    assert SameButPlace(m.mapInfo[id], ToEnd(m, id).mapInfo[id]);
    DropLastKeeps(env, ToEnd(m, id), id, limbo);
  }

  // ---------------------------------------------------------------- changing one entry

  lemma SetKeepsIndexes(infos: Infos, addrs: map<NetAddr, int>, n: int, v: seq<int>,
                        id: int, info: Info)
    requires Indexed(infos, addrs, n) && Shuffled(infos, v) && id in infos
    requires info.service == infos[id].service && info.nRandomPos == infos[id].nRandomPos
    ensures Indexed(infos[id := info], addrs, n) && Shuffled(infos[id := info], v)
  {
    assert infos[id := info].Keys == infos.Keys;
    assert |infos[id := info]| == |infos[id := info].Keys| && |infos| == |infos.Keys|;
  }

  lemma SetKeepsPlaces(env: Env, key: nat, infos: Infos, tried: Table, t: Table,
                       id: int, info: Info)
    requires TriedPlaced(env, key, infos, tried) && NewPlaced(env, key, infos, t) && id in infos
    requires info.service == infos[id].service && info.fInTried == infos[id].fInTried
    ensures TriedPlaced(env, key, infos[id := info], tried)
    ensures NewPlaced(env, key, infos[id := info], t)
  {
  }

  lemma NewPlacedWithout(env: Env, key: nat, infos: Infos, t: Table, gone: set<Slot>)
    requires NewPlaced(env, key, infos, t)
    ensures NewPlaced(env, key, infos, t - gone)
  {
  }

  lemma NewPlacedWith(env: Env, key: nat, infos: Infos, t: Table, s: Slot, id: int)
    requires NewPlaced(env, key, infos, t) && id in infos && !infos[id].fInTried
    requires 0 <= s.bucket < NEW_BUCKET_COUNT && s == NewSlot(env, key, infos[id].service, s.bucket)
    ensures NewPlaced(env, key, infos, t[s := id])
  {
  }

  /** Bookkeeping an operation does on an entry without moving it. */
  predicate Touches(info: Info, info': Info) {
    && info'.service == info.service && info'.nRandomPos == info.nRandomPos
    && info'.nRefCount == info.nRefCount && info'.fInTried == info.fInTried
    && info'.nLastTry >= 0 && info'.nLastSuccess >= 0
    && (info.fInTried ==> info'.nLastSuccess > 0)
  }

  function Touch(m: Manager, id: int, info: Info): Manager
    requires id in m.mapInfo
  {
    m.(mapInfo := m.mapInfo[id := info])
  }

  lemma TouchKeeps(env: Env, m: Manager, id: int, info: Info, limbo: set<int>)
    requires Core(env, m, limbo) && id in m.mapInfo && Touches(m.mapInfo[id], info)
    ensures Core(env, Touch(m, id, info), limbo)
    ensures SameDrift(m, Touch(m, id, info), 0)
  {
    hide Indexed, Shuffled, TriedPlaced, NewPlaced;
    SetKeepsIndexes(m.mapInfo, m.mapAddr, m.nIdCount, m.vRandom, id, info);
    SetKeepsPlaces(env, m.nKey, m.mapInfo, m.triedTable, m.newTable, id, info);
    CountInsert(m.mapInfo, id, info);
  }

  // ---------------------------------------------------------------- references from new slots

  function SetRef(m: Manager, id: int, n: int): Infos
    requires id in m.mapInfo
  {
    m.mapInfo[id := m.mapInfo[id].(nRefCount := n)]
  }

  function Dereference(m: Manager, s: Slot): Manager
    requires s in m.newTable && m.newTable[s] in m.mapInfo
  {
    var id := m.newTable[s];
    m.(newTable := m.newTable - {s}, mapInfo := SetRef(m, id, m.mapInfo[id].nRefCount - 1))
  }

  lemma DereferenceRefs(infos: Infos, t: Table, s: Slot, info: Info)
    requires Referenced(infos, t) && s in t && t[s] in infos
    requires info.nRefCount == infos[t[s]].nRefCount - 1
    ensures Referenced(infos[t[s] := info], t - {s}) && infos[t[s]].nRefCount > 0
  {
    assert s in SlotsOf(t, t[s]);
    forall j | j in infos
      ensures |SlotsOf(t - {s}, j)| == |SlotsOf(t, j)| - (if j == t[s] then 1 else 0)
    {
      SlotsRemove(t, s, j);
    }
  }

  lemma DereferenceKeeps(env: Env, m: Manager, s: Slot, limbo: set<int>)
    requires Core(env, m, limbo) && s in m.newTable
    ensures var m' := Dereference(m, s);
            && Core(env, m', limbo + {m.newTable[s]})
            && m.mapInfo[m.newTable[s]].nRefCount > 0
            && !m'.mapInfo[m.newTable[s]].fInTried
            && SameDrift(m, m', 0)
  {
    var id := m.newTable[s];
    var info := m.mapInfo[id].(nRefCount := m.mapInfo[id].nRefCount - 1);
    var infos := m.mapInfo[id := info];
    assert id in m.mapInfo && !m.mapInfo[id].fInTried;
    hide Indexed, Shuffled, TriedPlaced, NewPlaced, Referenced;
    SetKeepsPlaces(env, m.nKey, m.mapInfo, m.triedTable, m.newTable, id, info);
    NewPlacedWithout(env, m.nKey, infos, m.newTable, {s});
    SetKeepsIndexes(m.mapInfo, m.mapAddr, m.nIdCount, m.vRandom, id, info);
    CountInsert(m.mapInfo, id, info);
    DereferenceRefs(m.mapInfo, m.newTable, s, info);
  }

  /** What ClearNew needs of the entry it displaces, if there is one. */
  predicate Clearable(m: Manager, s: Slot) {
    s in m.newTable ==>
      && m.newTable[s] in m.mapInfo
      && m.mapInfo[m.newTable[s]].nRefCount > 0
      && (m.mapInfo[m.newTable[s]].nRefCount == 1 ==>
            Deletable(Dereference(m, s), m.newTable[s]))
  }

  function ClearNew(m: Manager, s: Slot): Manager
    requires Clearable(m, s)
  {
    if s !in m.newTable then m
    else
      var id := m.newTable[s];
      if m.mapInfo[id].nRefCount == 1 then Delete(Dereference(m, s), id) else Dereference(m, s)
  }

  lemma CoreClearable(env: Env, m: Manager, s: Slot, limbo: set<int>)
    requires Core(env, m, limbo)
    ensures Clearable(m, s)
  {
    if s in m.newTable {
      DereferenceKeeps(env, m, s, limbo);
    }
  }

  /** Clearing a slot empties it, forgets its entry exactly when that was the last reference, and
      leaves every other entry and the tried table alone. */
  lemma ClearNewKeeps(env: Env, m: Manager, s: Slot, limbo: set<int>)
    requires Core(env, m, limbo) && Clearable(m, s)
    requires s in m.newTable ==> m.newTable[s] !in limbo
    ensures var m' := ClearNew(m, s);
            && Core(env, m', limbo)
            && m'.newTable == m.newTable - {s}
            && m'.triedTable == m.triedTable && m'.nKey == m.nKey && m'.nIdCount == m.nIdCount
            && m'.nLastGood == m.nLastGood && m'.collisions == m.collisions
            && m'.mapInfo.Keys <= m.mapInfo.Keys
            && KeepsOthers(m.mapInfo, m'.mapInfo,
                           if s in m.newTable then {m.newTable[s]} else {})
    ensures SameDrift(m, ClearNew(m, s), 0)
  {
    hide Core, TriedDrift, NewDrift, Deletable, Delete;
    if s in m.newTable {
      var id := m.newTable[s];
      DereferenceKeeps(env, m, s, limbo);
      var m1 := Dereference(m, s);
      if m.mapInfo[id].nRefCount == 1 {
        DeleteKeeps(env, m1, id, limbo + {id});
        assert limbo + {id} - {id} == limbo;
      } else {
        DereferencedAnchors(env, m1, id, limbo);
      }
    } else {
      assert m.newTable - {s} == m.newTable;
    }
  }

  lemma DereferencedAnchors(env: Env, m: Manager, id: int, limbo: set<int>)
    requires Core(env, m, limbo + {id}) && id in m.mapInfo && m.mapInfo[id].nRefCount > 0
    ensures Core(env, m, limbo)
  {
  }

  function Reference(m: Manager, s: Slot, id: int): Manager
    requires id in m.mapInfo
  {
    m.(newTable := m.newTable[s := id], mapInfo := SetRef(m, id, m.mapInfo[id].nRefCount + 1))
  }

  lemma RefOf(infos: Infos, t: Table, id: int)
    requires Referenced(infos, t) && id in infos
    ensures infos[id].nRefCount == |SlotsOf(t, id)|
  {
  }

  lemma ReferenceRefs(infos: Infos, t: Table, s: Slot, id: int, info: Info)
    requires Referenced(infos, t) && s !in t && id in infos
    requires info.nRefCount == infos[id].nRefCount + 1 <= NEW_BUCKETS_PER_ADDRESS
    ensures Referenced(infos[id := info], t[s := id])
  {
    forall j | j in infos
      ensures |SlotsOf(t[s := id], j)| == |SlotsOf(t, j)| + (if j == id then 1 else 0)
    {
      SlotsInsert(t, s, id, j);
    }
  }

  lemma ReferenceKeeps(env: Env, m: Manager, s: Slot, id: int, limbo: set<int>)
    requires Core(env, m, limbo) && id in m.mapInfo && !m.mapInfo[id].fInTried
    requires s !in m.newTable && 0 <= s.bucket < NEW_BUCKET_COUNT
    requires s == NewSlot(env, m.nKey, m.mapInfo[id].service, s.bucket)
    requires m.mapInfo[id].nRefCount < NEW_BUCKETS_PER_ADDRESS
    ensures Core(env, Reference(m, s, id), limbo - {id})
    ensures SameDrift(m, Reference(m, s, id), 0)
  {
    hide Indexed, Shuffled, TriedPlaced, NewPlaced, Referenced, NewSlot, TriedIds;
    var info := m.mapInfo[id].(nRefCount := m.mapInfo[id].nRefCount + 1);
    var infos := m.mapInfo[id := info];
    RefOf(m.mapInfo, m.newTable, id);
    SetKeepsPlaces(env, m.nKey, m.mapInfo, m.triedTable, m.newTable, id, info);
    NewPlacedWith(env, m.nKey, infos, m.newTable, s, id);
    SetKeepsIndexes(m.mapInfo, m.mapAddr, m.nIdCount, m.vRandom, id, info);
    CountInsert(m.mapInfo, id, info);
    ReferenceRefs(m.mapInfo, m.newTable, s, id, info);
  }

  // ---------------------------------------------------------------- moving to and from tried

  /** The slots MakeTried visits and finds `id` in: its own position of every new bucket. */
  function OwnSlots(env: Env, m: Manager, id: int): set<Slot>
    requires id in m.mapInfo
  {
    set s | s in m.newTable && m.newTable[s] == id && 0 <= s.bucket < NEW_BUCKET_COUNT
            && s == NewSlot(env, m.nKey, m.mapInfo[id].service, s.bucket)
  }

  function Withdraw(env: Env, m: Manager, id: int): Manager
    requires id in m.mapInfo
  {
    var own := OwnSlots(env, m, id);
    m.(newTable := m.newTable - own,
       mapInfo := SetRef(m, id, m.mapInfo[id].nRefCount - |own|),
       nNew := m.nNew - 1)
  }

  lemma AllSlotsOwn(env: Env, m: Manager, id: int)
    requires NewPlaced(env, m.nKey, m.mapInfo, m.newTable) && id in m.mapInfo
    ensures OwnSlots(env, m, id) == SlotsOf(m.newTable, id)
  {
  }

  lemma WithdrawRefs(infos: Infos, t: Table, id: int, info: Info)
    requires Referenced(infos, t) && id in infos && info.nRefCount == 0
    ensures Referenced(infos[id := info], t - SlotsOf(t, id))
  {
    var t' := t - SlotsOf(t, id);
    forall j | j in infos
      ensures SlotsOf(t', j) == if j == id then {} else SlotsOf(t, j)
    {
    }
  }

  lemma WithdrawKeeps(env: Env, m: Manager, id: int, limbo: set<int>)
    requires Core(env, m, limbo) && id in m.mapInfo
    ensures var m' := Withdraw(env, m, id);
            && OwnSlots(env, m, id) == SlotsOf(m.newTable, id)
            && m'.mapInfo[id].nRefCount == 0
            && Core(env, m', limbo + {id})
            && SameDrift(m, m', 1)
  {
    hide Indexed, Shuffled, TriedPlaced, NewPlaced, Referenced, OwnSlots, SlotsOf;
    AllSlotsOwn(env, m, id);
    RefOf(m.mapInfo, m.newTable, id);
    var info := m.mapInfo[id].(nRefCount := 0);
    SetKeepsPlaces(env, m.nKey, m.mapInfo, m.triedTable, m.newTable, id, info);
    NewPlacedWithout(env, m.nKey, m.mapInfo[id := info], m.newTable, SlotsOf(m.newTable, id));
    SetKeepsIndexes(m.mapInfo, m.mapAddr, m.nIdCount, m.vRandom, id, info);
    CountInsert(m.mapInfo, id, info);
    WithdrawRefs(m.mapInfo, m.newTable, id, info);
  }

  function Demote(m: Manager, s: Slot): Manager
    requires s in m.triedTable && m.triedTable[s] in m.mapInfo
  {
    var id := m.triedTable[s];
    m.(mapInfo := m.mapInfo[id := m.mapInfo[id].(fInTried := false)],
       triedTable := m.triedTable - {s}, nTried := m.nTried - 1)
  }

  lemma TriedEntry(env: Env, m: Manager, s: Slot, limbo: set<int>)
    requires Core(env, m, limbo) && s in m.triedTable
    ensures m.triedTable[s] in m.mapInfo && m.mapInfo[m.triedTable[s]].fInTried
  {
    hide Indexed, Shuffled, NewPlaced, Referenced, Anchored;
  }

  lemma DemotePlaces(env: Env, key: nat, infos: Infos, tried: Table, t: Table, s: Slot, info: Info)
    requires TriedPlaced(env, key, infos, tried) && NewPlaced(env, key, infos, t) && s in tried
    requires info.service == infos[tried[s]].service && !info.fInTried
    ensures TriedPlaced(env, key, infos[tried[s] := info], tried - {s})
    ensures NewPlaced(env, key, infos[tried[s] := info], t)
  {
  }

  lemma DemoteKeeps(env: Env, m: Manager, s: Slot, limbo: set<int>)
    requires Core(env, m, limbo) && s in m.triedTable
    ensures var m' := Demote(m, s);
            && Core(env, m', limbo + {m.triedTable[s]})
            && SameDrift(m, m', 1)
  {
    var id := m.triedTable[s];
    var info := m.mapInfo[id].(fInTried := false);
    hide Indexed, Shuffled, TriedPlaced, NewPlaced, TriedIds;
    TriedEntry(env, m, s, limbo);
    DemotePlaces(env, m.nKey, m.mapInfo, m.triedTable, m.newTable, s, info);
    SetKeepsIndexes(m.mapInfo, m.mapAddr, m.nIdCount, m.vRandom, id, info);
    CountInsert(m.mapInfo, id, info);
  }

  function Promote(m: Manager, s: Slot, id: int): Manager
    requires id in m.mapInfo
  {
    m.(mapInfo := m.mapInfo[id := m.mapInfo[id].(fInTried := true)],
       triedTable := m.triedTable[s := id], nTried := m.nTried + 1)
  }

  lemma PromotePlaces(env: Env, key: nat, infos: Infos, tried: Table, t: Table,
                      s: Slot, id: int, info: Info)
    requires TriedPlaced(env, key, infos, tried) && NewPlaced(env, key, infos, t)
    requires id in infos && s !in tried && SlotsOf(t, id) == {}
    requires info.service == infos[id].service && info.fInTried
    requires s == TriedSlot(env, key, info.service)
    ensures TriedPlaced(env, key, infos[id := info], tried[s := id])
    ensures NewPlaced(env, key, infos[id := info], t)
  {
    forall u | u in t
      ensures t[u] != id
    {
      assert t[u] == id ==> u in SlotsOf(t, id);
    }
  }

  lemma PromoteKeeps(env: Env, m: Manager, s: Slot, id: int, limbo: set<int>)
    requires Core(env, m, limbo) && id in m.mapInfo && !m.mapInfo[id].fInTried
    requires m.mapInfo[id].nRefCount == 0 && m.mapInfo[id].nLastSuccess > 0
    requires s == TriedSlot(env, m.nKey, m.mapInfo[id].service) && s !in m.triedTable
    ensures var m' := Promote(m, s, id);
            && Core(env, m', limbo - {id})
            && SameDrift(m, m', -1)
  {
    var info := m.mapInfo[id].(fInTried := true);
    assert SlotsOf(m.newTable, id) == {};
    hide Indexed, Shuffled, TriedPlaced, NewPlaced;
    PromotePlaces(env, m.nKey, m.mapInfo, m.triedTable, m.newTable, s, id, info);
    SetKeepsIndexes(m.mapInfo, m.mapAddr, m.nIdCount, m.vRandom, id, info);
    CountInsert(m.mapInfo, id, info);
  }

  /** The slot an entry evicted from tried goes back to. */
  function HomeSlot(env: Env, key: nat, info: Info): Slot {
    NewSlot(env, key, info.service, NewBucket(env, key, info.service, info.source))
  }

  /** Give an entry in limbo its first reference and count it as new again. */
  function Reenter(m: Manager, s: Slot, id: int): Manager
    requires id in m.mapInfo
  {
    m.(newTable := m.newTable[s := id], mapInfo := SetRef(m, id, 1), nNew := m.nNew + 1)
  }

  lemma ReenterKeeps(env: Env, m: Manager, id: int, limbo: set<int>)
    requires Core(env, m, limbo) && id in m.mapInfo && !m.mapInfo[id].fInTried
    requires m.mapInfo[id].nRefCount == 0
    requires HomeSlot(env, m.nKey, m.mapInfo[id]) !in m.newTable
    ensures var m' := Reenter(m, HomeSlot(env, m.nKey, m.mapInfo[id]), id);
            && Core(env, m', limbo - {id})
            && SameDrift(m, m', -1)
  {
    var s := HomeSlot(env, m.nKey, m.mapInfo[id]);
    ReferenceKeeps(env, m, s, id, limbo);
    assert Reenter(m, s, id) == Reference(m, s, id).(nNew := m.nNew + 1);
  }

  /** An entry that is tried, or has no reference, is in no new slot. */
  lemma NoSlots(env: Env, m: Manager, id: int, limbo: set<int>)
    requires Core(env, m, limbo) && id in m.mapInfo
    requires m.mapInfo[id].fInTried || m.mapInfo[id].nRefCount == 0
    ensures SlotsOf(m.newTable, id) == {} && m.mapInfo[id].nRefCount == 0
  {
  }

  predicate Unreferenced(infos: Infos, ids: set<int>) {
    forall id :: id in infos && id in ids ==> infos[id].nRefCount == 0
  }

  /** The same entry up to where it is kept. */
  predicate SameRecord(a: Info, b: Info) {
    a.(nRandomPos := 0, nRefCount := 0, fInTried := false) == b.(nRandomPos := 0, nRefCount := 0, fInTried := false)
  }

  /** What surrounds the entry being evicted is untouched when room is made for it. */
  predicate Bystanders(m: Manager, m': Manager, limbo: set<int>) {
    && m'.nKey == m.nKey && m'.nIdCount == m.nIdCount
    && m'.nLastGood == m.nLastGood && m'.collisions == m.collisions
    && m'.mapInfo.Keys <= m.mapInfo.Keys
    && (forall id :: id in m'.mapInfo ==> SameRecord(m.mapInfo[id], m'.mapInfo[id]))
    && (forall id :: id in limbo && id in m.mapInfo ==>
          id in m'.mapInfo && SameButPlace(m.mapInfo[id], m'.mapInfo[id]))
  }

  lemma ClearBystanders(env: Env, m: Manager, s: Slot, limbo: set<int>)
    requires Core(env, m, limbo) && Clearable(m, s)
    requires Unreferenced(m.mapInfo, limbo)
    ensures Core(env, ClearNew(m, s), limbo)
    ensures Bystanders(m, ClearNew(m, s), limbo)
    ensures s !in ClearNew(m, s).newTable && ClearNew(m, s).triedTable == m.triedTable
    ensures SameDrift(m, ClearNew(m, s), 0)
  {
    hide Core, ClearNew, Clearable, TriedDrift, NewDrift;
    if s in m.newTable {
      Occupant(env, m, s, limbo);
    }
    ClearServices(m, s);
    ClearNewKeeps(env, m, s, limbo);
  }

  lemma Occupant(env: Env, m: Manager, s: Slot, limbo: set<int>)
    requires Core(env, m, limbo) && s in m.newTable && Unreferenced(m.mapInfo, limbo)
    ensures m.newTable[s] !in limbo
  {
    hide Indexed, Shuffled, TriedPlaced, Anchored;
    assert s in SlotsOf(m.newTable, m.newTable[s]);
  }

  lemma ClearServices(m: Manager, s: Slot)
    requires Clearable(m, s)
    ensures forall id :: id in ClearNew(m, s).mapInfo ==>
      id in m.mapInfo && SameRecord(m.mapInfo[id], ClearNew(m, s).mapInfo[id])
  {
  }

  /** Taking an entry out of tried and emptying its home slot for it. */
  lemma DemoteAndClear(env: Env, m: Manager, s: Slot, limbo: set<int>)
    requires Core(env, m, limbo) && s in m.triedTable && m.triedTable[s] !in limbo
    requires Unreferenced(m.mapInfo, limbo)
    ensures var id := m.triedTable[s];
            var home := HomeSlot(env, m.nKey, m.mapInfo[id]);
            var m1 := Demote(m, s);
            Clearable(m1, home)
            && var m2 := ClearNew(m1, home);
            && Core(env, m2, limbo + {id}) && Bystanders(m1, m2, limbo + {id})
            && m2.triedTable == m.triedTable - {s}
            && home !in m2.newTable && m2.mapInfo[id].nRefCount == 0
            && SameDrift(m, m2, 1)
  {
    var id := m.triedTable[s];
    var home := HomeSlot(env, m.nKey, m.mapInfo[id]);
    NoSlots(env, m, id, limbo);
    var m1 := Demote(m, s);
    assert Unreferenced(m1.mapInfo, limbo + {id});
    DemoteKeeps(env, m, s, limbo);
    hide Core, HomeSlot, ClearNew, Clearable, TriedDrift, NewDrift;
    CoreClearable(env, m1, home, limbo + {id});
    ClearBystanders(env, m1, home, limbo + {id});
    assert SameButPlace(m1.mapInfo[id], ClearNew(m1, home).mapInfo[id]);
  }

  /** Move the tried entry of slot `s` back to the new table, displacing what is there. */
  ghost function Evict(env: Env, m: Manager, s: Slot, limbo: set<int>): Manager
    requires Core(env, m, limbo) && s in m.triedTable && m.triedTable[s] !in limbo
    requires Unreferenced(m.mapInfo, limbo)
  {
    DemoteAndClear(env, m, s, limbo);
    var id := m.triedTable[s];
    var home := HomeSlot(env, m.nKey, m.mapInfo[id]);
    Reenter(ClearNew(Demote(m, s), home), home, id)
  }

  lemma EvictKeeps(env: Env, m: Manager, s: Slot, limbo: set<int>)
    requires Core(env, m, limbo) && s in m.triedTable && m.triedTable[s] !in limbo
    requires Unreferenced(m.mapInfo, limbo)
    ensures Core(env, Evict(env, m, s, limbo), limbo)
    ensures Evict(env, m, s, limbo).triedTable == m.triedTable - {s}
    ensures Bystanders(m, Evict(env, m, s, limbo), limbo)
    ensures SameDrift(m, Evict(env, m, s, limbo), 0)
  {
    var id := m.triedTable[s];
    DemoteAndClear(env, m, s, limbo);
    hide Core, ClearNew, Clearable, TriedDrift, NewDrift;
    var m1 := Demote(m, s);
    var m2 := ClearNew(m1, HomeSlot(env, m.nKey, m.mapInfo[id]));
    assert SameButPlace(m1.mapInfo[id], m2.mapInfo[id]);
    ReenterKeeps(env, m2, id, limbo + {id});
    assert limbo + {id} - {id} == limbo;
    EvictBystanders(m, m1, m2, Evict(env, m, s, limbo), id, limbo);
  }

  lemma EvictBystanders(m: Manager, m1: Manager, m2: Manager, m3: Manager, id: int,
                        limbo: set<int>)
    requires Bystanders(m1, m2, limbo + {id}) && id in m.mapInfo && id in m2.mapInfo
    requires m1 == m.(mapInfo := m.mapInfo[id := m.mapInfo[id].(fInTried := false)],
                      triedTable := m1.triedTable, nTried := m1.nTried)
    requires m3 == m2.(newTable := m3.newTable, mapInfo := SetRef(m2, id, 1), nNew := m3.nNew)
    requires id !in limbo
    ensures Bystanders(m, m3, limbo)
  {
  }
}
