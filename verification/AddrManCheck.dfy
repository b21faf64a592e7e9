/** The address manager's own consistency check, and how it relates to the invariant that every
    operation keeps. */
module AddrManCheck {
  import opened AddrManModel
  import opened AddrMan

  /** A lookup as the check does it: a missing address reads as zero. */
  function Lookup(addrs: map<NetAddr, int>, ip: NetAddr): int {
    if ip in addrs then addrs[ip] else 0
  }

  /** What is checked of one entry. */
  predicate EntryFine(infos: Infos, addrs: map<NetAddr, int>, v: seq<int>, id: int)
    requires id in infos
  {
    var info := infos[id];
    && (if info.fInTried then info.nLastSuccess != 0 && info.nRefCount == 0
        else 1 <= info.nRefCount <= NEW_BUCKETS_PER_ADDRESS)
    && Lookup(addrs, info.service.ip) == id
    && 0 <= info.nRandomPos < |v| && v[info.nRandomPos] == id
    && info.nLastTry >= 0 && info.nLastSuccess >= 0
  }

  function NewRefs(infos: Infos): map<int, int> {
    map id | id in infos && !infos[id].fInTried :: infos[id].nRefCount
  }

  predicate RefsMatch(infos: Infos, t: Table) {
    forall id :: id in infos && !infos[id].fInTried ==> infos[id].nRefCount == |SlotsOf(t, id)|
  }

  /** The conditions that together make the check return zero. */
  predicate Passes(env: Env, m: Manager) {
    && |m.vRandom| == m.nTried + m.nNew
    && (forall id :: id in m.mapInfo ==> EntryFine(m.mapInfo, m.mapAddr, m.vRandom, id))
    && |TriedIds(m.mapInfo)| == m.nTried && |NewRefs(m.mapInfo)| == m.nNew
    && TriedPlaced(env, m.nKey, m.mapInfo, m.triedTable)
    && NewPlaced(env, m.nKey, m.mapInfo, m.newTable) && RefsMatch(m.mapInfo, m.newTable)
    && m.nKey != 0
  }

  // ---------------------------------------------------------------- entries

  /** The entries among `infos` whose ids are still in `todo` are to be checked; the others have been. */
  ghost predicate Collected(infos: Infos, addrs: map<NetAddr, int>, v: seq<int>, todo: set<(int, Info)>,
                            setTried: set<int>, mapNew: map<int, int>) {
    && (forall item :: item in todo ==> item.0 in infos && infos[item.0] == item.1)
    && (forall id :: id in infos && (id, infos[id]) !in todo ==> EntryFine(infos, addrs, v, id))
    && (forall id :: id in setTried <==> id in infos && (id, infos[id]) !in todo && infos[id].fInTried)
    && (forall id :: id in mapNew <==> id in infos && (id, infos[id]) !in todo && !infos[id].fInTried)
    && forall id :: id in mapNew ==> mapNew[id] == infos[id].nRefCount
  }

  /** Checks all entries; in whatever order, the verdict is the same. */
  method CheckEntries(infos: Infos, addrs: map<NetAddr, int>, v: seq<int>)
    returns (code: int, setTried: set<int>, mapNew: map<int, int>)
    ensures code == 0 <==> forall id :: id in infos ==> EntryFine(infos, addrs, v, id)
    ensures code == 0 ==> setTried == TriedIds(infos) && mapNew == NewRefs(infos)
  {
    hide EntryFine;
    code, setTried, mapNew := 0, {}, map[];
    var todo := infos.Items;
    while todo != {}
      invariant code == 0 && Collected(infos, addrs, v, todo, setTried, mapNew)
      decreases |todo|
    {
      var item :| item in todo;
      var n, info := item.0, item.1;
      code := CheckEntry(infos, addrs, v, n);
      if code != 0 { return; }
      if info.fInTried { setTried := setTried + {n}; } else { mapNew := mapNew[n := info.nRefCount]; }
      todo := todo - {item};
    }
    AllCollected(infos, addrs, v, setTried, mapNew);
  }

  lemma AllCollected(infos: Infos, addrs: map<NetAddr, int>, v: seq<int>, setTried: set<int>, mapNew: map<int, int>)
    requires Collected(infos, addrs, v, {}, setTried, mapNew)
    ensures forall id :: id in infos ==> EntryFine(infos, addrs, v, id)
    ensures setTried == TriedIds(infos) && mapNew == NewRefs(infos)
  {
    hide EntryFine;
    assert forall id :: id in infos ==> (id, infos[id]) !in {};
    var refs, tried := NewRefs(infos), TriedIds(infos);
    assert forall id :: id in tried <==> id in setTried;
    assert tried <= setTried && setTried <= tried;
    assert forall id :: id in refs <==> id in mapNew;
    assert forall id :: id in refs ==> refs[id] == mapNew[id];
  }

  method CheckEntry(infos: Infos, addrs: map<NetAddr, int>, v: seq<int>, n: int) returns (code: int)
    requires n in infos
    ensures code == 0 <==> EntryFine(infos, addrs, v, n)
  {
    var info := infos[n];
    if info.fInTried {
      if info.nLastSuccess == 0 { return -1; }
      if info.nRefCount != 0 { return -2; }
    } else {
      if info.nRefCount < 0 || info.nRefCount > NEW_BUCKETS_PER_ADDRESS { return -3; }
      if info.nRefCount == 0 { return -4; }
    }
    if Lookup(addrs, info.service.ip) != n { return -5; }
    if info.nRandomPos < 0 || info.nRandomPos >= |v| || v[info.nRandomPos] != n { return -14; }
    if info.nLastTry < 0 { return -6; }
    if info.nLastSuccess < 0 { return -8; }
    return 0;
  }

  // ---------------------------------------------------------------- the tried table

  /** A slot visited before position `p` of bucket `b`. */
  predicate Before(s: Slot, b: int, p: int) { s.bucket < b || (s.bucket == b && s.pos < p) }

  /** The tried ids not yet met in their own slot. */
  function LeftTried(env: Env, key: nat, infos: Infos, t: Table, b: int, p: int): set<int> {
    set id | id in infos && infos[id].fInTried && !Met(env, key, infos, t, b, p, id)
  }

  predicate Met(env: Env, key: nat, infos: Infos, t: Table, b: int, p: int, id: int)
    requires id in infos
  {
    var s := TriedSlot(env, key, infos[id].service);
    s in t && t[s] == id && Before(s, b, p)
  }

  predicate TriedFine(env: Env, key: nat, infos: Infos, t: Table, s: Slot)
    requires s in t
  {
    t[s] in infos && infos[t[s]].fInTried && s == TriedSlot(env, key, infos[t[s]].service)
  }

  predicate TriedSeen(env: Env, key: nat, infos: Infos, t: Table, b: int, p: int) {
    forall s :: s in t && Before(s, b, p) ==> TriedFine(env, key, infos, t, s)
  }

  /** Checks the tried table slot by slot, crossing ids off. */
  method CheckTried(env: Env, key: nat, infos: Infos, a: array2<int>, setTried: set<int>) returns (code: int)
    requires a.Length0 == TRIED_BUCKET_COUNT && a.Length1 == BUCKET_SIZE && setTried == TriedIds(infos)
    ensures code == 0 <==> TriedPlaced(env, key, infos, TableOf(a))
  {
    hide TriedSlot, TriedPlaced, TriedSeen, LeftTried;
    ghost var t := TableOf(a);
    var left := setTried;
    TriedStart(env, key, infos, t, a);
    var n := 0;
    while n < TRIED_BUCKET_COUNT
      invariant 0 <= n <= TRIED_BUCKET_COUNT
      invariant TriedSeen(env, key, infos, t, n, 0) && left == LeftTried(env, key, infos, t, n, 0)
    {
      var i := 0;
      while i < BUCKET_SIZE
        invariant 0 <= i <= BUCKET_SIZE
        invariant TriedSeen(env, key, infos, t, n, i) && left == LeftTried(env, key, infos, t, n, i)
      {
        TableAt(a, n, i);
        var id := a[n, i];
        if id != -1 {
          TriedStep(env, key, infos, t, n, i);
          if id !in left { return -11; }
          if TriedBucket(env, key, infos[id].service) != n { return -17; }
          if Position(env, key, infos[id].service, false, n) != i { return -18; }
          left := left - {id};
        } else {
          TriedSkip(env, key, infos, t, n, i);
        }
        i := i + 1;
      }
      TriedRow(env, key, infos, a, n);
      n := n + 1;
    }
    TriedEnd(env, key, infos, a);
    if left != {} { return -13; }
    return 0;
  }

  lemma Bounded(a: array2<int>, s: Slot)
    requires s in TableOf(a)
    ensures 0 <= s.bucket < a.Length0 && 0 <= s.pos < a.Length1
  {
    InSlots(s, a.Length0, a.Length1);
  }

  lemma TriedStart(env: Env, key: nat, infos: Infos, t: Table, a: array2<int>)
    requires t == TableOf(a)
    ensures TriedSeen(env, key, infos, t, 0, 0) && LeftTried(env, key, infos, t, 0, 0) == TriedIds(infos)
  {
    hide TriedSlot;
    forall s | s in t ensures !Before(s, 0, 0) { Bounded(a, s); }
  }

  lemma TriedStep(env: Env, key: nat, infos: Infos, t: Table, n: int, i: int)
    requires Slot(n, i) in t && TriedSeen(env, key, infos, t, n, i)
    ensures var id := t[Slot(n, i)];
      && (id !in LeftTried(env, key, infos, t, n, i) ==> !TriedPlaced(env, key, infos, t))
      && (id in LeftTried(env, key, infos, t, n, i) ==>
            && id in infos && infos[id].fInTried
            && (TriedBucket(env, key, infos[id].service) != n ==> !TriedPlaced(env, key, infos, t))
            && (Position(env, key, infos[id].service, false, n) != i ==> !TriedPlaced(env, key, infos, t))
            && (&& TriedBucket(env, key, infos[id].service) == n
                && Position(env, key, infos[id].service, false, n) == i ==>
                  && TriedSeen(env, key, infos, t, n, i + 1)
                  && LeftTried(env, key, infos, t, n, i + 1) == LeftTried(env, key, infos, t, n, i) - {id}))
  {
    hide TriedBucket, Position;
    NextBefore(n, i);
    assert !Before(Slot(n, i), n, i);
  }

  lemma TriedSkip(env: Env, key: nat, infos: Infos, t: Table, n: int, i: int)
    requires Slot(n, i) !in t && TriedSeen(env, key, infos, t, n, i)
    ensures TriedSeen(env, key, infos, t, n, i + 1)
    ensures LeftTried(env, key, infos, t, n, i + 1) == LeftTried(env, key, infos, t, n, i)
  {
    hide TriedSlot;
    NextBefore(n, i);
  }

  lemma TriedRow(env: Env, key: nat, infos: Infos, a: array2<int>, n: int)
    requires a.Length1 == BUCKET_SIZE && TriedSeen(env, key, infos, TableOf(a), n, BUCKET_SIZE)
    ensures TriedSeen(env, key, infos, TableOf(a), n + 1, 0)
    ensures LeftTried(env, key, infos, TableOf(a), n + 1, 0) == LeftTried(env, key, infos, TableOf(a), n, BUCKET_SIZE)
  {
    hide TriedSlot;
    var t := TableOf(a);
    forall s | s in t ensures Before(s, n + 1, 0) <==> Before(s, n, BUCKET_SIZE) { Bounded(a, s); }
  }

  lemma TriedEnd(env: Env, key: nat, infos: Infos, a: array2<int>)
    requires a.Length0 == TRIED_BUCKET_COUNT && TriedSeen(env, key, infos, TableOf(a), TRIED_BUCKET_COUNT, 0)
    ensures LeftTried(env, key, infos, TableOf(a), TRIED_BUCKET_COUNT, 0) == {} <==>
      TriedPlaced(env, key, infos, TableOf(a))
  {
    hide TriedSlot;
    var t := TableOf(a);
    forall s | s in t ensures Before(s, TRIED_BUCKET_COUNT, 0) { Bounded(a, s); }
    if LeftTried(env, key, infos, t, TRIED_BUCKET_COUNT, 0) == {} {
      forall id | id in infos && infos[id].fInTried ensures Met(env, key, infos, t, TRIED_BUCKET_COUNT, 0, id) {
        assert id !in LeftTried(env, key, infos, t, TRIED_BUCKET_COUNT, 0);
      }
    }
  }

  // ---------------------------------------------------------------- the new table

  function SeenSlots(t: Table, id: int, b: int, p: int): set<Slot> {
    set s | s in t && t[s] == id && Before(s, b, p)
  }

  /** The references of each new entry not yet met. */
  function LeftNew(infos: Infos, t: Table, b: int, p: int): map<int, int> {
    map id | id in infos && !infos[id].fInTried && |SeenSlots(t, id, b, p)| < infos[id].nRefCount ::
      infos[id].nRefCount - |SeenSlots(t, id, b, p)|
  }

  predicate NewFine(env: Env, key: nat, infos: Infos, t: Table, s: Slot)
    requires s in t
  {
    t[s] in infos && !infos[t[s]].fInTried && s == NewSlot(env, key, infos[t[s]].service, s.bucket)
  }

  predicate NewSeen(env: Env, key: nat, infos: Infos, t: Table, b: int, p: int) {
    && (forall s :: s in t && Before(s, b, p) ==> NewFine(env, key, infos, t, s))
    && forall id :: id in infos && !infos[id].fInTried ==> |SeenSlots(t, id, b, p)| <= infos[id].nRefCount
  }

  /** Checks the new table slot by slot, counting references down. */
  method CheckNew(env: Env, key: nat, infos: Infos, a: array2<int>, mapNew: map<int, int>) returns (code: int)
    requires a.Length0 == NEW_BUCKET_COUNT && a.Length1 == BUCKET_SIZE && mapNew == NewRefs(infos)
    requires forall id :: id in infos && !infos[id].fInTried ==> infos[id].nRefCount >= 1
    ensures code == 0 <==> NewPlaced(env, key, infos, TableOf(a)) && RefsMatch(infos, TableOf(a))
  {
    hide NewSlot, NewPlaced, RefsMatch, NewSeen, LeftNew;
    ghost var t := TableOf(a);
    var left := mapNew;
    NewStart(env, key, infos, a);
    var n := 0;
    while n < NEW_BUCKET_COUNT
      invariant 0 <= n <= NEW_BUCKET_COUNT
      invariant NewSeen(env, key, infos, t, n, 0) && left == LeftNew(infos, t, n, 0)
    {
      var i := 0;
      while i < BUCKET_SIZE
        invariant 0 <= i <= BUCKET_SIZE
        invariant NewSeen(env, key, infos, t, n, i) && left == LeftNew(infos, t, n, i)
      {
        TableAt(a, n, i);
        var id := a[n, i];
        if id != -1 {
          NewStep(env, key, infos, a, n, i);
          if id !in left { return -12; }
          if Position(env, key, infos[id].service, true, n) != i { return -19; }
          left := if left[id] - 1 == 0 then left - {id} else left[id := left[id] - 1];
        } else {
          NewSkip(env, key, infos, t, n, i);
        }
        i := i + 1;
      }
      NewRow(env, key, infos, a, n);
      n := n + 1;
    }
    NewEnd(env, key, infos, a);
    if left.Keys != {} { return -15; }
    return 0;
  }

  lemma NewStart(env: Env, key: nat, infos: Infos, a: array2<int>)
    requires forall id :: id in infos && !infos[id].fInTried ==> infos[id].nRefCount >= 1
    ensures NewSeen(env, key, infos, TableOf(a), 0, 0) && LeftNew(infos, TableOf(a), 0, 0) == NewRefs(infos)
  {
    hide NewSlot;
    var t := TableOf(a);
    forall s | s in t ensures !Before(s, 0, 0) { Bounded(a, s); }
    forall id | id in infos ensures SeenSlots(t, id, 0, 0) == {} { }
  }

  lemma SeenGrows(t: Table, n: int, i: int)
    requires Slot(n, i) in t
    ensures forall id ::
      SeenSlots(t, id, n, i + 1) == SeenSlots(t, id, n, i) + if t[Slot(n, i)] == id then {Slot(n, i)} else {}
    ensures forall id :: |SeenSlots(t, id, n, i + 1)| == |SeenSlots(t, id, n, i)| + if t[Slot(n, i)] == id then 1 else 0
    ensures forall id :: SeenSlots(t, id, n, i + 1) <= SlotsOf(t, id)
  {
    NextBefore(n, i);
    forall id
      ensures SeenSlots(t, id, n, i + 1) == SeenSlots(t, id, n, i) + if t[Slot(n, i)] == id then {Slot(n, i)} else {}
      ensures |SeenSlots(t, id, n, i + 1)| == |SeenSlots(t, id, n, i)| + if t[Slot(n, i)] == id then 1 else 0
      ensures SeenSlots(t, id, n, i + 1) <= SlotsOf(t, id)
    {
      SeenOne(t, id, n, i);
    }
  }

  lemma SeenOne(t: Table, id: int, n: int, i: int)
    requires Slot(n, i) in t && forall u: Slot :: Before(u, n, i + 1) <==> Before(u, n, i) || u == Slot(n, i)
    ensures SeenSlots(t, id, n, i + 1) == SeenSlots(t, id, n, i) + if t[Slot(n, i)] == id then {Slot(n, i)} else {}
    ensures |SeenSlots(t, id, n, i + 1)| == |SeenSlots(t, id, n, i)| + if t[Slot(n, i)] == id then 1 else 0
    ensures SeenSlots(t, id, n, i + 1) <= SlotsOf(t, id)
  {
    assert !Before(Slot(n, i), n, i);
    assert Slot(n, i) !in SeenSlots(t, id, n, i);
  }

  lemma {:induction false} SubsetCount(a: set<Slot>, b: set<Slot>)
    requires a <= b
    ensures |a| <= |b|
    decreases |a|
  {
    if a != {} {
      var s :| s in a;
      SubsetCount(a - {s}, b - {s});
    }
  }

  /** A slot that does not fit: the reason the table fails. */
  lemma NewStep(env: Env, key: nat, infos: Infos, a: array2<int>, n: int, i: int)
    requires Slot(n, i) in TableOf(a) && NewSeen(env, key, infos, TableOf(a), n, i)
    ensures var t := TableOf(a);
      var id, left := t[Slot(n, i)], LeftNew(infos, t, n, i);
      && (id !in left ==> !(NewPlaced(env, key, infos, t) && RefsMatch(infos, t)))
      && (id in left ==>
            && id in infos && !infos[id].fInTried
            && (Position(env, key, infos[id].service, true, n) != i ==> !NewPlaced(env, key, infos, t))
            && (Position(env, key, infos[id].service, true, n) == i ==>
                  && NewSeen(env, key, infos, t, n, i + 1)
                  && LeftNew(infos, t, n, i + 1) ==
                     if left[id] - 1 == 0 then left - {id} else left[id := left[id] - 1]))
  {
    hide Position, SeenSlots, NewSeen, LeftNew;
    var t := TableOf(a);
    var s, id := Slot(n, i), t[Slot(n, i)];
    SeenGrows(t, n, i);
    if NewPlaced(env, key, infos, t) && RefsMatch(infos, t) { NewOver(env, key, infos, t, n, i); }
    if id in LeftNew(infos, t, n, i) { NewCounts(env, key, infos, t, n, i); }
  }

  lemma NewOver(env: Env, key: nat, infos: Infos, t: Table, n: int, i: int)
    requires Slot(n, i) in t && NewPlaced(env, key, infos, t) && RefsMatch(infos, t)
    ensures t[Slot(n, i)] in LeftNew(infos, t, n, i)
  {
    hide Position, SeenSlots;
    var id := t[Slot(n, i)];
    SeenGrows(t, n, i);
    SubsetCount(SeenSlots(t, id, n, i + 1), SlotsOf(t, id));
  }

  lemma NewCounts(env: Env, key: nat, infos: Infos, t: Table, n: int, i: int)
    requires Slot(n, i) in t && NewSeen(env, key, infos, t, n, i) && t[Slot(n, i)] in LeftNew(infos, t, n, i)
    ensures var id, left := t[Slot(n, i)], LeftNew(infos, t, n, i);
      && id in infos && !infos[id].fInTried
      && (Position(env, key, infos[id].service, true, n) != i ==> !NewPlaced(env, key, infos, t))
      && (Position(env, key, infos[id].service, true, n) == i ==>
            && NewSeen(env, key, infos, t, n, i + 1)
            && LeftNew(infos, t, n, i + 1) == if left[id] - 1 == 0 then left - {id} else left[id := left[id] - 1])
  {
    hide Position, SeenSlots, LeftNew;
    var id := t[Slot(n, i)];
    SeenGrows(t, n, i);
    NextBefore(n, i);
    LeftCounts(infos, t, n, i);
    assert id in infos && !infos[id].fInTried && |SeenSlots(t, id, n, i)| < infos[id].nRefCount by {
      LeftKeys(infos, t, n, i, id);
    }
  }

  lemma LeftKeys(infos: Infos, t: Table, n: int, i: int, id: int)
    requires id in LeftNew(infos, t, n, i)
    ensures id in infos && !infos[id].fInTried && |SeenSlots(t, id, n, i)| < infos[id].nRefCount
  {
    hide SeenSlots;
  }

  /** Meeting a slot takes one reference off its entry. */
  lemma LeftCounts(infos: Infos, t: Table, n: int, i: int)
    requires Slot(n, i) in t && t[Slot(n, i)] in LeftNew(infos, t, n, i)
    ensures var id, left := t[Slot(n, i)], LeftNew(infos, t, n, i);
      LeftNew(infos, t, n, i + 1) == if left[id] - 1 == 0 then left - {id} else left[id := left[id] - 1]
  {
    hide SeenSlots, LeftNew;
    SeenGrows(t, n, i);
    var x, left, after := t[Slot(n, i)], LeftNew(infos, t, n, i), LeftNew(infos, t, n, i + 1);
    var want := if left[x] - 1 == 0 then left - {x} else left[x := left[x] - 1];
    forall id
      ensures id in after <==> id in want
      ensures id in after ==> after[id] == want[id]
    {
      LeftAt(infos, t, n, i, id);
      LeftAt(infos, t, n, i, x);
      LeftAt(infos, t, n, i + 1, id);
    }
    assert after == want;
  }

  lemma LeftAt(infos: Infos, t: Table, n: int, i: int, id: int)
    ensures var left := LeftNew(infos, t, n, i);
      && (id in left <==> id in infos && !infos[id].fInTried && |SeenSlots(t, id, n, i)| < infos[id].nRefCount)
      && (id in left ==> left[id] == infos[id].nRefCount - |SeenSlots(t, id, n, i)|)
  {
    hide SeenSlots;
  }

  lemma NextBefore(n: int, i: int)
    ensures forall u: Slot :: Before(u, n, i + 1) <==> Before(u, n, i) || u == Slot(n, i)
  {
    forall u: Slot ensures Before(u, n, i + 1) <==> Before(u, n, i) || u == Slot(n, i) {
      assert u == Slot(u.bucket, u.pos);
    }
  }

  lemma NewSkip(env: Env, key: nat, infos: Infos, t: Table, n: int, i: int)
    requires Slot(n, i) !in t && NewSeen(env, key, infos, t, n, i)
    ensures NewSeen(env, key, infos, t, n, i + 1) && LeftNew(infos, t, n, i + 1) == LeftNew(infos, t, n, i)
  {
    hide NewSlot;
    NextBefore(n, i);
    forall id ensures SeenSlots(t, id, n, i + 1) == SeenSlots(t, id, n, i) { }
  }

  lemma NewRow(env: Env, key: nat, infos: Infos, a: array2<int>, n: int)
    requires a.Length1 == BUCKET_SIZE && NewSeen(env, key, infos, TableOf(a), n, BUCKET_SIZE)
    ensures NewSeen(env, key, infos, TableOf(a), n + 1, 0)
    ensures LeftNew(infos, TableOf(a), n + 1, 0) == LeftNew(infos, TableOf(a), n, BUCKET_SIZE)
  {
    hide NewSlot;
    var t := TableOf(a);
    forall s | s in t ensures Before(s, n + 1, 0) <==> Before(s, n, BUCKET_SIZE) { Bounded(a, s); }
    forall id ensures SeenSlots(t, id, n + 1, 0) == SeenSlots(t, id, n, BUCKET_SIZE) { }
  }

  lemma NewEnd(env: Env, key: nat, infos: Infos, a: array2<int>)
    requires a.Length0 == NEW_BUCKET_COUNT && NewSeen(env, key, infos, TableOf(a), NEW_BUCKET_COUNT, 0)
    ensures LeftNew(infos, TableOf(a), NEW_BUCKET_COUNT, 0).Keys == {} <==>
      NewPlaced(env, key, infos, TableOf(a)) && RefsMatch(infos, TableOf(a))
  {
    hide NewSlot;
    var t := TableOf(a);
    forall s | s in t ensures Before(s, NEW_BUCKET_COUNT, 0) && 0 <= s.bucket < NEW_BUCKET_COUNT { Bounded(a, s); }
    forall id ensures SeenSlots(t, id, NEW_BUCKET_COUNT, 0) == SlotsOf(t, id) { }
    var left := LeftNew(infos, t, NEW_BUCKET_COUNT, 0);
    if left.Keys == {} {
      forall id | id in infos && !infos[id].fInTried ensures infos[id].nRefCount == |SlotsOf(t, id)| {
        assert id !in left;
      }
    }
  }

  // ---------------------------------------------------------------- the whole check

  /** The check returns zero exactly if its conditions hold. */
  method Check(am: AddressManager) returns (code: int)
    requires am.Shaped()
    ensures code == 0 <==> Passes(am.env, am.State())
  {
    hide TriedPlaced, NewPlaced, RefsMatch, TableOf, SlotsOf;
    if |am.vRandom| != am.nTried + am.nNew { return -7; }
    var setTried, mapNew;
    code, setTried, mapNew := CheckEntries(am.mapInfo, am.mapAddr, am.vRandom);
    if code != 0 { return; }
    if |setTried| != am.nTried { return -9; }
    if |mapNew| != am.nNew { return -10; }
    code := CheckTried(am.env, am.nKey, am.mapInfo, am.vvTried, setTried);
    if code != 0 { return; }
    code := CheckNew(am.env, am.nKey, am.mapInfo, am.vvNew, mapNew);
    if code != 0 { return; }
    if am.nKey == 0 { return -16; }
    return 0;
  }

  /** What the invariant says beyond the check: ids come from the counter, and no address is
      indexed that has no entry. */
  predicate Tight(m: Manager) {
    && m.nIdCount >= 0
    && (forall id :: id in m.mapInfo ==> 0 <= id < m.nIdCount && m.mapInfo[id].service.ip in m.mapAddr)
    && forall a :: a in m.mapAddr ==> m.mapAddr[a] in m.mapInfo && m.mapInfo[m.mapAddr[a]].service.ip == a
  }

  /** The invariant is the manager's own check and what it takes for granted. */
  lemma InvariantIsCheck(env: Env, m: Manager)
    requires m.nKey != 0
    ensures Inv(env, m) <==> Passes(env, m) && Tight(m)
  {
    if Inv(env, m) { InvariantPasses(env, m); }
    if Passes(env, m) && Tight(m) { PassingIsInvariant(env, m); }
  }

  lemma CountSplit(infos: Infos)
    ensures |infos| == |TriedIds(infos)| + |NewRefs(infos)|
  {
    assert infos.Keys == TriedIds(infos) + NewRefs(infos).Keys;
  }

  lemma InvariantPasses(env: Env, m: Manager)
    requires Inv(env, m) && m.nKey != 0
    ensures Passes(env, m) && Tight(m)
  {
    hide TriedSlot, NewSlot;
    CountSplit(m.mapInfo);
    forall id | id in m.mapInfo ensures EntryFine(m.mapInfo, m.mapAddr, m.vRandom, id) {
      if m.mapInfo[id].fInTried { assert SlotsOf(m.newTable, id) == {}; }
    }
  }

  lemma PassingIsInvariant(env: Env, m: Manager)
    requires Passes(env, m) && Tight(m)
    ensures Inv(env, m)
  {
    hide TriedPlaced, NewPlaced, RefsMatch, EntryFine, Tight;
    CountSplit(m.mapInfo);
    EntriesFine(m.mapInfo, m.mapAddr, m.vRandom);
    TightIndexed(m);
    ReferencesMatch(env, m);
  }

  lemma EntriesFine(infos: Infos, addrs: map<NetAddr, int>, v: seq<int>)
    requires |v| == |infos| && forall id :: id in infos ==> EntryFine(infos, addrs, v, id)
    ensures Shuffled(infos, v) && Anchored(infos, {}) && Timed(infos)
  {
    forall id | id in infos
      ensures 0 <= infos[id].nRandomPos < |v| && v[infos[id].nRandomPos] == id
    {
      assert EntryFine(infos, addrs, v, id);
    }
    RandomCovers(infos, v);
    forall id | id in infos ensures EntryFine(infos, addrs, v, id) { }
  }

  lemma TightIndexed(m: Manager)
    requires Tight(m) && forall id :: id in m.mapInfo ==> EntryFine(m.mapInfo, m.mapAddr, m.vRandom, id)
    ensures Indexed(m.mapInfo, m.mapAddr, m.nIdCount)
  {
    forall id | id in m.mapInfo ensures EntryFine(m.mapInfo, m.mapAddr, m.vRandom, id) { }
  }

  lemma ReferencesMatch(env: Env, m: Manager)
    requires NewPlaced(env, m.nKey, m.mapInfo, m.newTable) && RefsMatch(m.mapInfo, m.newTable)
    requires forall id :: id in m.mapInfo ==> EntryFine(m.mapInfo, m.mapAddr, m.vRandom, id)
    ensures Referenced(m.mapInfo, m.newTable)
  {
    hide NewSlot;
    forall id | id in m.mapInfo
      ensures m.mapInfo[id].nRefCount == |SlotsOf(m.newTable, id)| <= NEW_BUCKETS_PER_ADDRESS
    {
      assert EntryFine(m.mapInfo, m.mapAddr, m.vRandom, id);
      if m.mapInfo[id].fInTried { assert SlotsOf(m.newTable, id) == {}; }
    }
  }

  function Ids(v: seq<int>): set<int> { set x | x in v }

  /** As many positions as entries, each entry at its own: so every position is an entry's. */
  lemma RandomCovers(infos: Infos, v: seq<int>)
    requires |v| == |infos|
    requires forall id :: id in infos ==> 0 <= infos[id].nRandomPos < |v| && v[infos[id].nRandomPos] == id
    ensures forall k :: 0 <= k < |v| ==> v[k] in infos && infos[v[k]].nRandomPos == k
  {
    IdsCount(v);
    forall id | id in infos ensures id in Ids(v) { assert v[infos[id].nRandomPos] in v; }
    assert infos.Keys <= Ids(v);
    SameSize(infos.Keys, Ids(v));
    forall k | 0 <= k < |v| ensures v[k] in infos && infos[v[k]].nRandomPos == k {
      assert v[k] in Ids(v);
    }
  }

  /** A list has at most as many ids as positions, and if as many then no repeats. */
  lemma {:induction false} IdsCount(v: seq<int>)
    ensures |Ids(v)| <= |v|
    ensures |Ids(v)| == |v| ==> forall i, j :: 0 <= i < j < |v| ==> v[i] != v[j]
    decreases |v|
  {
    if v != [] {
      var n := |v| - 1;
      var front := v[..n];
      IdsCount(front);
      assert Ids(v) == Ids(front) + {v[n]};
      if v[n] in front {
        assert Ids(v) == Ids(front);
      } else {
        forall i | 0 <= i < n ensures v[i] != v[n] { assert v[i] == front[i]; }
        forall i, j | 0 <= i < j < n ensures |Ids(front)| == n ==> v[i] != v[j] {
          assert v[i] == front[i] && v[j] == front[j];
        }
      }
    }
  }

  lemma SameSize(a: set<int>, b: set<int>)
    requires a <= b && |a| >= |b|
    ensures a == b
  {
    assert |b - a| == |b| - |a|;
    assert b - a == {};
  }
}
