/** The stochastic address manager as a value: five cross-linked indexes and two counters, the
    operations on them, and the consistency invariant the manager is built around. */
module AddrManModel {

  const TRIED_BUCKET_COUNT := 256
  const NEW_BUCKET_COUNT := 1024
  const BUCKET_SIZE := 64
  const TRIED_BUCKETS_PER_GROUP := 8
  const NEW_BUCKETS_PER_SOURCE_GROUP := 64
  const NEW_BUCKETS_PER_ADDRESS := 8
  const HORIZON_DAYS := 30
  const RETRIES := 3
  const MAX_FAILURES := 10
  const MIN_FAIL_DAYS := 7
  const REPLACEMENT_SECONDS := 4 * 60 * 60
  const GETADDR_MAX_PCT := 23
  const GETADDR_MAX := 2500
  const TRIED_COLLISION_SIZE := 10
  const DAY := 24 * 60 * 60
  const UINT32 := 0x1_0000_0000

  // ---------------------------------------------------------------- data

  datatype NetAddr = NetAddr(ip: nat)
  datatype Service = Service(ip: NetAddr, port: nat)

  /** An advertised address: endpoint, the service bits set, and the time it was last seen (32
      bits). */
  datatype Address = Address(service: Service, flags: set<nat>, nTime: int)

  datatype Info = Info(
    service: Service, flags: set<nat>, nTime: int, source: NetAddr,
    nLastTry: int, nLastCountAttempt: int, nLastSuccess: int, nAttempts: int,
    nRefCount: int, fInTried: bool, nRandomPos: int)

  datatype Slot = Slot(bucket: int, pos: int)

  /** What is fed to the keyed hash. */
  datatype Datum =
    | Key(key: nat) | Endpoint(s: Service) | Group(g: nat) | Number(n: int) | Letter(c: char)

  /** The parts of the program this model leaves open: the hash, the address groups and the
      address classification. */
  datatype Env = Env(
    hash: seq<Datum> -> nat,
    group: NetAddr -> nat,
    routable: NetAddr -> bool,
    valid: NetAddr -> bool)

  function TriedBucket(env: Env, key: nat, s: Service): (b: int)
    ensures 0 <= b < TRIED_BUCKET_COUNT
  {
    var hash1 := env.hash([Key(key), Endpoint(s)]);
    env.hash([Key(key), Group(env.group(s.ip)), Number(hash1 % TRIED_BUCKETS_PER_GROUP)])
      % TRIED_BUCKET_COUNT
  }

  function NewBucket(env: Env, key: nat, s: Service, src: NetAddr): (b: int)
    ensures 0 <= b < NEW_BUCKET_COUNT
  {
    var hash1 := env.hash([Key(key), Group(env.group(s.ip)), Group(env.group(src))]);
    env.hash([Key(key), Group(env.group(src)), Number(hash1 % NEW_BUCKETS_PER_SOURCE_GROUP)])
      % NEW_BUCKET_COUNT
  }

  function Position(env: Env, key: nat, s: Service, isNew: bool, bucket: int): (p: int)
    ensures 0 <= p < BUCKET_SIZE
  {
    env.hash([Key(key), Letter(if isNew then 'N' else 'K'), Number(bucket), Endpoint(s)])
      % BUCKET_SIZE
  }

  function TriedSlot(env: Env, key: nat, s: Service): Slot {
    var b := TriedBucket(env, key, s);
    Slot(b, Position(env, key, s, false, b))
  }

  /** The only place bucket `b` of the new table may hold `s`. */
  function NewSlot(env: Env, key: nat, s: Service, b: int): Slot {
    Slot(b, Position(env, key, s, true, b))
  }

  /** Tables list their occupied slots only: an absent slot is one holding -1. */
  type Table = map<Slot, int>

  datatype Manager = Manager(
    nKey: nat, nIdCount: int,
    mapInfo: map<int, Info>, mapAddr: map<NetAddr, int>, vRandom: seq<int>,
    nTried: int, triedTable: Table, nNew: int, newTable: Table,
    nLastGood: int, collisions: set<nat>)

  function Empty(key: nat, collisions: set<nat>): Manager {
    Manager(key, 0, map[], map[], [], 0, map[], 0, map[], 1, collisions)
  }

  ghost function Least(s: set<nat>): (x: nat)
    requires s != {}
    ensures x in s && forall y :: y in s ==> x <= y
  {
    var x :| x in s;
    var rest := s - {x};
    assert forall y :: y in s ==> y == x || y in rest;
    if rest == {} then x
    else
      var y := Least(rest);
      if x <= y then x else y
  }

  // ---------------------------------------------------------------- the invariant

  function SlotsOf(t: Table, id: int): set<Slot> {
    set s | s in t && t[s] == id
  }

  function TriedIds(infos: map<int, Info>): set<int> {
    set id | id in infos && infos[id].fInTried
  }

  type Infos = map<int, Info>

  /** mapAddr and mapInfo index each other, and ids stay below the id counter. */
  predicate Indexed(infos: Infos, addrs: map<NetAddr, int>, nIdCount: int) {
    && nIdCount >= 0
    && (forall id :: id in infos ==>
          && 0 <= id < nIdCount
          && infos[id].service.ip in addrs
          && addrs[infos[id].service.ip] == id)
    && (forall a :: a in addrs ==> addrs[a] in infos && infos[addrs[a]].service.ip == a)
  }

  /** vRandom lists every id once, at the position the entry records. */
  predicate Shuffled(infos: Infos, v: seq<int>) {
    && |v| == |infos|
    && (forall id :: id in infos ==>
          && 0 <= infos[id].nRandomPos < |v|
          && v[infos[id].nRandomPos] == id)
    && (forall k :: 0 <= k < |v| ==> v[k] in infos && infos[v[k]].nRandomPos == k)
  }

  /** Tried entries sit in their own slot, and only they do. */
  predicate TriedPlaced(env: Env, key: nat, infos: Infos, tried: Table) {
    && (forall s :: s in tried ==>
          && tried[s] in infos
          && infos[tried[s]].fInTried
          && s == TriedSlot(env, key, infos[tried[s]].service))
    && (forall id :: id in infos && infos[id].fInTried ==>
          && TriedSlot(env, key, infos[id].service) in tried
          && tried[TriedSlot(env, key, infos[id].service)] == id)
  }

  /** Occupied new slots hold untried entries at their own positions. */
  predicate NewPlaced(env: Env, key: nat, infos: Infos, t: Table) {
    forall s :: s in t ==>
      && t[s] in infos
      && !infos[t[s]].fInTried
      && 0 <= s.bucket < NEW_BUCKET_COUNT
      && s == NewSlot(env, key, infos[t[s]].service, s.bucket)
  }

  /** Reference counts are exact and at most eight. */
  predicate Referenced(infos: Infos, t: Table) {
    forall id :: id in infos ==>
      infos[id].nRefCount == |SlotsOf(t, id)| <= NEW_BUCKETS_PER_ADDRESS
  }

  /** Every entry is tried or referenced, save those of `limbo`, which are in transit. */
  predicate Anchored(infos: Infos, limbo: set<int>) {
    forall id :: id in infos && id !in limbo ==> infos[id].fInTried || infos[id].nRefCount > 0
  }

  predicate Timed(infos: Infos) {
    forall id :: id in infos ==>
      && infos[id].nLastTry >= 0
      && infos[id].nLastSuccess >= 0
      && (infos[id].fInTried ==> infos[id].nLastSuccess > 0)
  }

  /** How far nTried and nNew are from the entries they count; entries in transit make nNew
      momentarily too small. */
  function TriedDrift(m: Manager): int {
    |TriedIds(m.mapInfo)| - m.nTried
  }

  function NewDrift(m: Manager): int {
    |m.mapInfo| - |TriedIds(m.mapInfo)| - m.nNew
  }

  predicate Core(env: Env, m: Manager, limbo: set<int>) {
    && Indexed(m.mapInfo, m.mapAddr, m.nIdCount)
    && Shuffled(m.mapInfo, m.vRandom)
    && TriedPlaced(env, m.nKey, m.mapInfo, m.triedTable)
    && NewPlaced(env, m.nKey, m.mapInfo, m.newTable)
    && Referenced(m.mapInfo, m.newTable)
    && Anchored(m.mapInfo, limbo)
    && Timed(m.mapInfo)
  }

  predicate Inv(env: Env, m: Manager) {
    Core(env, m, {}) && TriedDrift(m) == 0 && NewDrift(m) == 0
  }
}
