/** Compact blocks: a block sent as short transaction ids and a few whole transactions, rebuilt from
    the receiver's pools (BIP 152). */
module CompactBlocks {
  import opened Arithmetic
  import opened Options

  /** A transaction, identified by its hash. */
  type Tx = nat

  /** A whole transaction and its distance from the one before; it may be null. */
  datatype Prefilled = Prefilled(index: nat, tx: Option<Tx>)

  datatype Compact = Compact(headerIsNull: bool, shortTxIds: seq<nat>, prefilledTxn: seq<Prefilled>)

  datatype Status = Ok | Invalid | Failed | CheckBlockFailed

  type Slots = seq<Option<Tx>>

  // ---------------------------------------------------------------- what a compact block stands for

  /** The position of the i-th whole transaction: distances add up. */
  function At(prefilled: seq<Prefilled>, i: nat): nat
    requires i < |prefilled|
  {
    if i == 0 then prefilled[0].index else At(prefilled, i - 1) + prefilled[i].index + 1
  }

  lemma {:induction false} AtGrows(prefilled: seq<Prefilled>, i: nat, j: nat)
    requires i < j < |prefilled|
    ensures At(prefilled, i) + (j - i) <= At(prefilled, j)
    decreases j
  {
    if i < j - 1 { AtGrows(prefilled, i, j - 1); }
  }

  predicate Taken(prefilled: seq<Prefilled>, n: nat, p: nat)
    requires n <= |prefilled|
  {
    exists i :: 0 <= i < n && At(prefilled, i) == p
  }

  /** The positions from `p` on that are not taken by a whole transaction. */
  function Others(prefilled: seq<Prefilled>, p: nat, size: nat): seq<nat>
    requires p <= size
    decreases size - p
  {
    if p == size then []
    else (if Taken(prefilled, |prefilled|, p) then [] else [p]) + Others(prefilled, p + 1, size)
  }

  /** The compact block lists exactly the transactions of the block: whole ones at their positions,
      the rest by short id in order. */
  ghost predicate Encodes(c: Compact, short: Tx -> nat, block: seq<Tx>) {
    && |block| == |c.shortTxIds| + |c.prefilledTxn|
    && (forall i :: 0 <= i < |c.prefilledTxn| ==>
         && c.prefilledTxn[i].index < TWO_32 - 1
         && At(c.prefilledTxn, i) < |block| && c.prefilledTxn[i].tx == Some(block[At(c.prefilledTxn, i)]))
    && var others := Others(c.prefilledTxn, 0, |block|);
    && |others| == |c.shortTxIds|
    && forall i :: 0 <= i < |others| ==> others[i] < |block| && c.shortTxIds[i] == short(block[others[i]])
  }

  /** Different transactions have different short ids. */
  ghost predicate Injective(short: Tx -> nat, block: seq<Tx>, pool: seq<Tx>, extra: seq<Tx>) {
    forall t, u :: (t in block || t in pool || t in extra) && (u in block || u in pool || u in extra) ==>
      (short(t) == short(u) ==> t == u)
  }

  // ---------------------------------------------------------------- sending

  /** A block with its first transaction whole and the others by short id. */
  method FromBlock(block: seq<Tx>, short: Tx -> nat) returns (c: Compact)
    requires block != []
    ensures Encodes(c, short, block) && !c.headerIsNull && c.prefilledTxn == [Prefilled(0, Some(block[0]))]
  {
    var ids: seq<nat> := [];
    var i := 1;
    while i < |block|
      invariant 1 <= i <= |block| && |ids| == i - 1
      invariant forall j :: 0 <= j < i - 1 ==> ids[j] == short(block[j + 1])
    {
      ids := ids + [short(block[i])];
      i := i + 1;
    }
    c := Compact(false, ids, [Prefilled(0, Some(block[0]))]);
    OthersAfterFirst(c.prefilledTxn, 0, |block|);
  }

  lemma {:induction false} OthersAfterFirst(prefilled: seq<Prefilled>, p: nat, size: nat)
    requires |prefilled| == 1 && prefilled[0].index == 0 && p <= size
    ensures var others, first := Others(prefilled, p, size), if p == 0 then 1 else p;
      && |others| == (if size < first then 0 else size - first)
      && forall i :: 0 <= i < |others| ==> others[i] == first + i
    decreases size - p
  {
    if p < size {
      assert At(prefilled, 0) == 0;
      assert Taken(prefilled, 1, p) <==> p == 0;
      OthersAfterFirst(prefilled, p + 1, size);
    }
  }

  // ---------------------------------------------------------------- receiving: whole transactions

  /** The empty slots from `p` on. */
  function Empties(slots: Slots, p: nat): seq<nat>
    requires p <= |slots|
    decreases |slots| - p
  {
    if p == |slots| then [] else (if slots[p].None? then [p] else []) + Empties(slots, p + 1)
  }

  lemma {:induction false} FillOne(slots: Slots, p: nat, k: nat, tx: Tx)
    requires p <= |slots| && k < |slots|
    ensures |Empties(slots[k := Some(tx)], p)| >= |Empties(slots, p)| - 1
    ensures k < p ==> |Empties(slots[k := Some(tx)], p)| == |Empties(slots, p)|
    decreases |slots| - p
  {
    if p < |slots| { FillOne(slots, p + 1, k, tx); }
  }

  lemma {:induction false} AllEmpty(n: nat, p: nat)
    requires p <= n
    ensures |Empties(seq(n, _ => None), p)| == n - p
    decreases n - p
  {
    if p < n { AllEmpty(n, p + 1); }
  }

  /** Slots filled so far agree with the block, and exactly the positions taken are filled. */
  ghost predicate Placed(c: Compact, n: nat, block: seq<Tx>, slots: Slots) {
    && n <= |c.prefilledTxn| && |slots| == |block|
    && forall p :: 0 <= p < |slots| ==>
         slots[p] == if Taken(c.prefilledTxn, n, p) then Some(block[p]) else None
  }

  /** The position of the i-th whole transaction as the receiver adds it up: the distance plus one wraps. */
  function Pos(prefilled: seq<Prefilled>, i: nat): int
    requires i < |prefilled|
  {
    (if i == 0 then -1 else Pos(prefilled, i - 1)) + (prefilled[i].index + 1) % TWO_32
  }

  /** No whole transaction is null or further on than those before it and the short ids reach. */
  predicate InLine(c: Compact, n: nat)
    requires n <= |c.prefilledTxn|
  {
    forall i :: 0 <= i < n ==>
      c.prefilledTxn[i].tx.Some? && 0 <= Pos(c.prefilledTxn, i) < TWO_32 && Pos(c.prefilledTxn, i) <= |c.shortTxIds| + i
  }

  /** Puts the whole transactions in place; fails exactly if one is null or out of line. */
  method PlacePrefilled(c: Compact, ghost short: Tx -> nat, ghost block: seq<Tx>) returns (slots: Option<Slots>)
    requires |c.shortTxIds| + |c.prefilledTxn| <= TWO_32
    ensures slots.Some? <==> InLine(c, |c.prefilledTxn|)
    ensures slots.Some? ==>
      |slots.value| == |c.shortTxIds| + |c.prefilledTxn| && |Empties(slots.value, 0)| >= |c.shortTxIds|
    ensures Encodes(c, short, block) ==> slots.Some? && Placed(c, |c.prefilledTxn|, block, slots.value)
  {
    hide Encodes, Placed, Taken, Empties, At;
    var count := |c.shortTxIds| + |c.prefilledTxn|;
    var txns: Slots := seq(count, _ => None);
    AllEmpty(count, 0);
    NothingPlaced(c, short, block, txns);
    var last, i := -1, 0;
    while i < |c.prefilledTxn|
      invariant 0 <= i <= |c.prefilledTxn| && |txns| == count && -1 <= last
      invariant |Empties(txns, 0)| >= count - i
      invariant InLine(c, i) && last == if i == 0 then -1 else Pos(c.prefilledTxn, i - 1)
      invariant Encodes(c, short, block) ==> Placed(c, i, block, txns)
      invariant Encodes(c, short, block) ==> last == if i == 0 then -1 else At(c.prefilledTxn, i - 1)
    {
      var prefilled := c.prefilledTxn[i];
      if prefilled.tx.None? {
        NeverInvalid(c, short, block, i);
        return None;
      }
      if Encodes(c, short, block) { NeverInvalid(c, short, block, i); }
      last := last + (prefilled.index + 1) % TWO_32;
      if last > TWO_32 - 1 || last < 0 || last > |c.shortTxIds| + i {
        return None;
      }
      FillOne(txns, 0, last, prefilled.tx.value);
      if Encodes(c, short, block) { PlaceNext(c, short, block, txns, i); }
      txns := txns[last := Some(prefilled.tx.value)];
      i := i + 1;
    }
    return Some(txns);
  }

  lemma NothingPlaced(c: Compact, short: Tx -> nat, block: seq<Tx>, slots: Slots)
    requires |slots| == |c.shortTxIds| + |c.prefilledTxn| && forall p :: 0 <= p < |slots| ==> slots[p] == None
    ensures Encodes(c, short, block) ==> Placed(c, 0, block, slots)
  {
  }

  /** The position of a whole transaction leaves room for those after it. */
  lemma NeverInvalid(c: Compact, short: Tx -> nat, block: seq<Tx>, i: nat)
    requires i < |c.prefilledTxn|
    ensures Encodes(c, short, block) ==>
      && c.prefilledTxn[i].tx.Some? && (c.prefilledTxn[i].index + 1) % TWO_32 == c.prefilledTxn[i].index + 1
      && At(c.prefilledTxn, i) <= |c.shortTxIds| + i
      && At(c.prefilledTxn, i) == (if i == 0 then -1 else At(c.prefilledTxn, i - 1)) + c.prefilledTxn[i].index + 1
  {
    var last := |c.prefilledTxn| - 1;
    if i < last { AtGrows(c.prefilledTxn, i, last); }
  }

  lemma PlaceNext(c: Compact, short: Tx -> nat, block: seq<Tx>, slots: Slots, i: nat)
    requires i < |c.prefilledTxn| && Encodes(c, short, block) && Placed(c, i, block, slots)
    ensures c.prefilledTxn[i].tx.Some? && At(c.prefilledTxn, i) < |slots|
    ensures Placed(c, i + 1, block, slots[At(c.prefilledTxn, i) := c.prefilledTxn[i].tx])
  {
    hide At, Taken;
    assert At(c.prefilledTxn, i) < |block| && c.prefilledTxn[i].tx == Some(block[At(c.prefilledTxn, i)]);
    forall p: nat
      ensures Taken(c.prefilledTxn, i + 1, p) <==> p == At(c.prefilledTxn, i) || Taken(c.prefilledTxn, i, p)
    {
      TakenNext(c.prefilledTxn, i, p);
    }
  }

  lemma TakenNext(prefilled: seq<Prefilled>, i: nat, p: nat)
    requires i < |prefilled|
    ensures Taken(prefilled, i + 1, p) <==> p == At(prefilled, i) || Taken(prefilled, i, p)
  {
  }

  // ---------------------------------------------------------------- receiving: short ids

  /** The index of short ids: each short id leads to the slot of its transaction. */
  ghost predicate Leads(ids: map<nat, nat>, shortTxIds: seq<nat>, empties: seq<nat>, n: nat) {
    && n <= |shortTxIds| && n <= |empties|
    && (forall s :: s in ids ==> exists i :: 0 <= i < n && shortTxIds[i] == s && ids[s] == empties[i])
    && forall i :: 0 <= i < n ==> shortTxIds[i] in ids
  }

  /** Assigns the empty slots to the short ids in order.  `crowded` says whether a bucket of the
      hash table got too full after an insertion. */
  method IndexShortIds(shortTxIds: seq<nat>, slots: Slots, crowded: nat -> bool) returns (ids: Option<map<nat, nat>>)
    requires |Empties(slots, 0)| >= |shortTxIds|
    ensures ids.Some? ==> Leads(ids.value, shortTxIds, Empties(slots, 0), |shortTxIds|)
    ensures ids.Some? ==>
      OneToOne(ids.value, shortTxIds, Empties(slots, 0), |shortTxIds|) && |ids.value| == |shortTxIds|
    ensures ids.None? <==> (exists i :: 0 <= i < |shortTxIds| && crowded(i)) || Repeats(shortTxIds, |shortTxIds|)
  {
    hide Leads, OneToOne, Repeats;
    ghost var empties := Empties(slots, 0);
    var m: map<nat, nat> := map[];
    var at, i := 0, 0;
    assert empties[0..] == empties;
    NothingLeads(shortTxIds, empties);
    while i < |shortTxIds|
      invariant 0 <= i <= |shortTxIds| && 0 <= at <= |slots|
      invariant Empties(slots, at) == empties[i..]
      invariant Leads(m, shortTxIds, empties, i) && OneToOne(m, shortTxIds, empties, i)
      invariant forall j :: 0 <= j < i ==> !crowded(j)
    {
      at := NextEmpty(slots, at);
      LeadsNext(m, shortTxIds, empties, i);
      OneToOneNext(m, shortTxIds, empties, i);
      m := m[shortTxIds[i] := at];
      assert empties[i..][1..] == empties[i + 1..];
      if crowded(i) { return None; }
      at := at + 1;
      i := i + 1;
    }
    Collided(m, shortTxIds, empties);
    if |m| != |shortTxIds| { return None; }
    return Some(m);
  }

  /** An id occurs twice among the first `n`. */
  predicate Repeats(shortTxIds: seq<nat>, n: nat) {
    exists i, j :: 0 <= i < j < n <= |shortTxIds| && shortTxIds[i] == shortTxIds[j]
  }

  /** The index is short of entries exactly if an id repeats; else it has every id where it belongs. */
  ghost predicate OneToOne(ids: map<nat, nat>, shortTxIds: seq<nat>, empties: seq<nat>, n: nat) {
    && n <= |shortTxIds| && n <= |empties| && |ids| <= n && (|ids| < n <==> Repeats(shortTxIds, n))
    && (|ids| == n ==> Mapped(ids, shortTxIds, empties, n))
  }

  predicate Mapped(ids: map<nat, nat>, shortTxIds: seq<nat>, empties: seq<nat>, n: nat)
    requires n <= |shortTxIds| && n <= |empties|
  {
    forall i :: 0 <= i < n ==> shortTxIds[i] in ids && ids[shortTxIds[i]] == empties[i]
  }

  lemma MappedNext(ids: map<nat, nat>, shortTxIds: seq<nat>, empties: seq<nat>, i: nat)
    requires i < |shortTxIds| && i < |empties|
    ensures shortTxIds[i] !in ids && Mapped(ids, shortTxIds, empties, i) ==>
      Mapped(ids[shortTxIds[i] := empties[i]], shortTxIds, empties, i + 1)
    ensures |ids[shortTxIds[i] := empties[i]]| == |ids| + if shortTxIds[i] in ids then 0 else 1
  {
    var s := shortTxIds[i];
    var ids' := ids[s := empties[i]];
    assert ids'.Keys == ids.Keys + {s};
    if s in ids { assert ids'.Keys == ids.Keys; }
  }

  lemma OneToOneNext(ids: map<nat, nat>, shortTxIds: seq<nat>, empties: seq<nat>, i: nat)
    requires Leads(ids, shortTxIds, empties, i) && OneToOne(ids, shortTxIds, empties, i) && i < |shortTxIds|
    requires i < |empties|
    ensures OneToOne(ids[shortTxIds[i] := empties[i]], shortTxIds, empties, i + 1)
  {
    hide Leads, Repeats, Mapped;
    RepeatsNext(ids, shortTxIds, empties, i);
    MappedNext(ids, shortTxIds, empties, i);
  }

  lemma RepeatsNext(ids: map<nat, nat>, shortTxIds: seq<nat>, empties: seq<nat>, i: nat)
    requires Leads(ids, shortTxIds, empties, i) && i < |shortTxIds|
    ensures Repeats(shortTxIds, i + 1) <==> Repeats(shortTxIds, i) || shortTxIds[i] in ids
  {
    if Repeats(shortTxIds, i + 1) {
      var j, k :| 0 <= j < k < i + 1 <= |shortTxIds| && shortTxIds[j] == shortTxIds[k];
      if k < i { assert Repeats(shortTxIds, i); }
    }
    if Repeats(shortTxIds, i) {
      var j, k :| 0 <= j < k < i <= |shortTxIds| && shortTxIds[j] == shortTxIds[k];
      assert k < i + 1;
    }
    if shortTxIds[i] in ids {
      var j :| 0 <= j < i && shortTxIds[j] == shortTxIds[i] && ids[shortTxIds[i]] == empties[j];
      assert Repeats(shortTxIds, i + 1);
    }
  }

  lemma Collided(ids: map<nat, nat>, shortTxIds: seq<nat>, empties: seq<nat>)
    requires OneToOne(ids, shortTxIds, empties, |shortTxIds|)
    ensures |ids| != |shortTxIds| <==> Repeats(shortTxIds, |shortTxIds|)
  {
    hide Repeats;
  }

  lemma NothingLeads(shortTxIds: seq<nat>, empties: seq<nat>)
    ensures Leads(map[], shortTxIds, empties, 0) && OneToOne(map[], shortTxIds, empties, 0)
  {
  }

  lemma LeadsNext(ids: map<nat, nat>, shortTxIds: seq<nat>, empties: seq<nat>, i: nat)
    requires Leads(ids, shortTxIds, empties, i) && i < |shortTxIds| && i < |empties|
    ensures Leads(ids[shortTxIds[i] := empties[i]], shortTxIds, empties, i + 1)
  {
    var ids' := ids[shortTxIds[i] := empties[i]];
    forall s | s in ids' ensures exists j :: 0 <= j < i + 1 && shortTxIds[j] == s && ids'[s] == empties[j] {
      if s == shortTxIds[i] {
        assert ids'[s] == empties[i];
      } else {
        var j :| 0 <= j < i && shortTxIds[j] == s && ids[s] == empties[j];
        assert ids'[s] == empties[j];
      }
    }
  }

  /** The next empty slot; there is one, so the search stays in range. */
  method NextEmpty(slots: Slots, from: nat) returns (at: nat)
    requires from <= |slots| && Empties(slots, from) != []
    ensures from <= at < |slots| && slots[at].None?
    ensures Empties(slots, from) == [at] + Empties(slots, at + 1)
  {
    at := from;
    while slots[at].Some?
      invariant from <= at < |slots| && Empties(slots, at) == Empties(slots, from)
      decreases |slots| - at
    {
      at := at + 1;
    }
  }

  // ---------------------------------------------------------------- receiving: the pools

  /** Nothing in a slot is wrong. */
  ghost predicate Agrees(slots: Slots, block: seq<Tx>) {
    |slots| == |block| && forall p :: 0 <= p < |slots| ==> slots[p] == None || slots[p] == Some(block[p])
  }

  /** Every id leads to a slot, and to the right one for each transaction that has it. */
  ghost predicate Routes(ids: map<nat, nat>, short: Tx -> nat, block: seq<Tx>, txs: seq<Tx>) {
    forall t :: t in txs && short(t) in ids ==> ids[short(t)] < |block| && block[ids[short(t)]] == t
  }

  predicate InRange(ids: map<nat, nat>, n: nat) {
    forall s :: s in ids ==> ids[s] < n
  }

  lemma IndexRoutes(c: Compact, short: Tx -> nat, block: seq<Tx>, slots: Slots, ids: map<nat, nat>, pool: seq<Tx>,
                    extra: seq<Tx>)
    requires Encodes(c, short, block) && Injective(short, block, pool, extra)
    requires Placed(c, |c.prefilledTxn|, block, slots)
    requires Leads(ids, c.shortTxIds, Empties(slots, 0), |c.shortTxIds|)
    ensures Agrees(slots, block) && Routes(ids, short, block, pool) && Routes(ids, short, block, extra)
  {
    hide At, Taken;
    EmptiesAreOthers(c, block, slots, 0);
    var others := Others(c.prefilledTxn, 0, |block|);
    forall t | (t in pool || t in extra) && short(t) in ids
      ensures ids[short(t)] < |block| && block[ids[short(t)]] == t
    {
      var i :| 0 <= i < |c.shortTxIds| && c.shortTxIds[i] == short(t) && ids[short(t)] == others[i];
      assert block[others[i]] in block;
    }
  }

  lemma {:induction false} EmptiesAreOthers(c: Compact, block: seq<Tx>, slots: Slots, p: nat)
    requires Placed(c, |c.prefilledTxn|, block, slots) && p <= |slots|
    ensures Empties(slots, p) == Others(c.prefilledTxn, p, |block|)
    decreases |slots| - p
  {
    hide Taken;
    if p < |slots| { EmptiesAreOthers(c, block, slots, p + 1); }
  }

  lemma {:induction false} EmptiesInRange(slots: Slots, p: nat)
    requires p <= |slots|
    ensures forall i :: 0 <= i < |Empties(slots, p)| ==> Empties(slots, p)[i] < |slots|
    decreases |slots| - p
  {
    if p < |slots| { EmptiesInRange(slots, p + 1); }
  }

  lemma IndexInRange(ids: map<nat, nat>, shortTxIds: seq<nat>, slots: Slots)
    requires Leads(ids, shortTxIds, Empties(slots, 0), |shortTxIds|)
    ensures InRange(ids, |slots|)
  {
    EmptiesInRange(slots, 0);
  }

  // ---------------------------------------------------------------- receiving: what is found

  /** Different ids lead to different slots. */
  predicate Apart(ids: map<nat, nat>) {
    forall s, u :: s in ids && u in ids && s != u ==> ids[s] != ids[u]
  }

  predicate NoRepeats(txs: seq<Tx>) {
    forall i, j :: 0 <= i < j < |txs| ==> txs[i] != txs[j]
  }

  /** The ids in the index that some transaction has. */
  function Hits(ids: map<nat, nat>, short: Tx -> nat, txs: seq<Tx>): set<nat> {
    set t | t in txs && short(t) in ids :: short(t)
  }

  /** The slots of the ids found are filled, those of the others empty; other slots are as before. */
  predicate Filled(ids: map<nat, nat>, slots0: Slots, slots: Slots, have: seq<bool>, found: set<nat>) {
    && |slots| == |slots0| == |have| && InRange(ids, |slots|) && found <= ids.Keys
    && (forall s :: s in ids ==> (have[ids[s]] <==> s in found) && (slots[ids[s]].Some? <==> s in found))
    && forall p :: 0 <= p < |slots| && p !in ids.Values ==> slots[p] == slots0[p]
  }

  /** Exactly the transactions that were sent whole, or that the pools have, are in place. */
  ghost predicate Stocked(c: Compact, block: seq<Tx>, pool: seq<Tx>, extra: seq<Tx>, slots: Slots) {
    |slots| == |block| && forall p :: 0 <= p < |slots| ==>
      (slots[p].Some? <==> Taken(c.prefilledTxn, |c.prefilledTxn|, p) || block[p] in pool || block[p] in extra)
  }

  lemma OneMore(a: set<nat>, b: set<nat>, s: nat)
    ensures a + b + {s} == a + (b + {s})
  {
  }

  lemma NoHits(ids: map<nat, nat>, short: Tx -> nat, txs: seq<Tx>)
    ensures Hits(ids, short, txs[..0]) == {}
  {
  }

  lemma NextHit(ids: map<nat, nat>, short: Tx -> nat, txs: seq<Tx>, i: nat)
    requires i < |txs|
    ensures short(txs[i]) in ids ==> Hits(ids, short, txs[..i + 1]) == Hits(ids, short, txs[..i]) + {short(txs[i])}
    ensures short(txs[i]) !in ids ==> Hits(ids, short, txs[..i + 1]) == Hits(ids, short, txs[..i])
    ensures Hits(ids, short, txs[..i + 1]) <= Hits(ids, short, txs) <= ids.Keys
  {
    assert txs[..i + 1] == txs[..i] + [txs[i]];
  }

  /** Filling the slot of an id not found before; one found before stays. */
  lemma Claim(ids: map<nat, nat>, slots0: Slots, slots: Slots, have: seq<bool>, found: set<nat>, s: nat, tx: Tx)
    requires Filled(ids, slots0, slots, have, found) && Apart(ids) && s in ids
    ensures ids[s] < |slots| == |have| && (have[ids[s]] <==> s in found) && (slots[ids[s]].Some? <==> s in found)
    ensures s !in found || slots[ids[s]] == Some(tx) ==>
      Filled(ids, slots0, slots[ids[s] := Some(tx)], have[ids[s] := true], found + {s})
    ensures |found + {s}| == |found| + if s in found then 0 else 1
  {
    assert ids[s] in ids.Values;
    if s in found { assert found + {s} == found; }
  }

  lemma FirstClaim(ids: map<nat, nat>, short: Tx -> nat, block: seq<Tx>, pool: seq<Tx>, i: nat,
                   slots0: Slots, slots: Slots, have: seq<bool>, found: set<nat>)
    requires i < |pool| && short(pool[i]) in ids && Routes(ids, short, block, pool) && NoRepeats(pool) && Apart(ids)
    requires Filled(ids, slots0, slots, have, found) && found == Hits(ids, short, pool[..i])
    ensures var s := short(pool[i]);
      && ids[s] < |slots| == |have| && !have[ids[s]] && |found + {s}| == |found| + 1
      && Filled(ids, slots0, slots[ids[s] := Some(pool[i])], have[ids[s] := true], found + {s})
  {
    hide Filled, Apart;
    var s := short(pool[i]);
    forall t | t in pool[..i] && short(t) in ids ensures short(t) != s {
      var j :| 0 <= j < i && pool[j] == t;
      assert pool[j] in pool && pool[i] in pool && pool[j] != pool[i];
    }
    Claim(ids, slots0, slots, have, found, s, pool[i]);
  }

  lemma RightClaim(ids: map<nat, nat>, short: Tx -> nat, block: seq<Tx>, txs: seq<Tx>, tx: Tx, slots: Slots)
    requires tx in txs && short(tx) in ids && Routes(ids, short, block, txs) && Agrees(slots, block)
    ensures var p := ids[short(tx)];
      && p < |slots| && Agrees(slots[p := Some(tx)], block) && Agrees(slots[p := None], block)
      && (slots[p].Some? ==> slots[p].value == tx)
  {
  }

  lemma {:induction false} SubsetFull(a: set<nat>, b: set<nat>)
    requires a <= b && |a| == |b|
    ensures a == b
    decreases |a|
  {
    if a != {} {
      var y :| y in a;
      SubsetFull(a - {y}, b - {y});
      assert a == a - {y} + {y} && b == b - {y} + {y};
    }
  }

  /** What a scan aims at: the index and the slots it starts from, the block they belong to if they
      do, and the ids found by an earlier scan. */
  datatype Scan = Scan(ids: map<nat, nat>, short: Tx -> nat, block: seq<Tx>, good: bool, clean: bool,
                       slots: Slots, before: set<nat>)

  ghost predicate Purposeful(g: Scan, txs: seq<Tx>) {
    && InRange(g.ids, |g.slots|) && (g.good ==> Routes(g.ids, g.short, g.block, txs))
    && (g.clean ==> g.good && Apart(g.ids))
  }

  /** After `i` transactions nothing is wrong, and if all is clean all that can be found is. */
  ghost predicate Scanned(g: Scan, txs: seq<Tx>, i: nat, slots: Slots, have: seq<bool>, count: int, found: set<nat>) {
    && i <= |txs| && Purposeful(g, txs) && |slots| == |g.slots| == |have| && (g.good ==> Agrees(slots, g.block))
    && (g.clean ==>
          && Filled(g.ids, g.slots, slots, have, found) && count == |found|
          && found == g.before + Hits(g.ids, g.short, txs[..i]))
  }

  lemma ScanStart(g: Scan, txs: seq<Tx>, slots: Slots, have: seq<bool>, count: int)
    requires InRange(g.ids, |slots|) && |have| == |slots| == |g.slots|
    requires g.good ==> Agrees(slots, g.block) && Routes(g.ids, g.short, g.block, txs)
    requires g.clean ==> g.good && Apart(g.ids) && Filled(g.ids, g.slots, slots, have, g.before) && count == |g.before|
    ensures Scanned(g, txs, 0, slots, have, count, g.before)
  {
    hide Filled, Apart, Hits, Routes, Agrees;
    NoHits(g.ids, g.short, txs);
    assert g.before + {} == g.before;
  }

  lemma PoolStep(g: Scan, txs: seq<Tx>, i: nat, slots: Slots, have: seq<bool>, count: int, found: set<nat>)
    requires Scanned(g, txs, i, slots, have, count, found) && i < |txs|
    requires g.clean ==> NoRepeats(txs) && g.before == {}
    ensures g.short(txs[i]) !in g.ids ==> Scanned(g, txs, i + 1, slots, have, count, found)
    ensures g.short(txs[i]) in g.ids ==>
      var s := g.short(txs[i]);
      var p := g.ids[s];
      && p < |slots| == |have|
      && Scanned(g, txs, i + 1, slots[p := if have[p] then None else Some(txs[i])], have[p := true],
                 count + (if !have[p] then 1 else if slots[p].Some? then -1 else 0), found + {s})
  {
    hide Filled, Apart, NoRepeats, Hits, Routes, Agrees;
    NextHit(g.ids, g.short, txs, i);
    if g.short(txs[i]) in g.ids {
      assert txs[i] in txs;
      if g.good { RightClaim(g.ids, g.short, g.block, txs, txs[i], slots); }
      if g.clean {
        assert {} + Hits(g.ids, g.short, txs[..i]) == Hits(g.ids, g.short, txs[..i]);
        FirstClaim(g.ids, g.short, g.block, txs, i, g.slots, slots, have, found);
        OneMore(g.before, Hits(g.ids, g.short, txs[..i]), g.short(txs[i]));
      }
    }
  }

  lemma ExtraStep(g: Scan, txs: seq<Tx>, i: nat, slots: Slots, have: seq<bool>, count: int, found: set<nat>)
    requires Scanned(g, txs, i, slots, have, count, found) && i < |txs|
    ensures g.short(txs[i]) !in g.ids ==> Scanned(g, txs, i + 1, slots, have, count, found)
    ensures g.short(txs[i]) in g.ids ==>
      var s := g.short(txs[i]);
      var p := g.ids[s];
      && p < |slots| == |have|
      && Scanned(g, txs, i + 1, slots[p := if !have[p] || slots[p] == Some(txs[i]) then Some(txs[i]) else None],
                 have[p := true], count + (if !have[p] then 1 else if slots[p] in {None, Some(txs[i])} then 0 else -1),
                 found + {s})
  {
    hide Filled, Apart, Hits, Routes, Agrees;
    NextHit(g.ids, g.short, txs, i);
    if g.short(txs[i]) in g.ids {
      assert txs[i] in txs;
      if g.good { RightClaim(g.ids, g.short, g.block, txs, txs[i], slots); }
      if g.clean {
        Claim(g.ids, g.slots, slots, have, found, g.short(txs[i]), txs[i]);
        OneMore(g.before, Hits(g.ids, g.short, txs[..i]), g.short(txs[i]));
      }
    }
  }

  /** Once as many are found as there are ids, there is nothing more to find. */
  lemma AllFound(g: Scan, txs: seq<Tx>, i: nat, slots: Slots, have: seq<bool>, count: int, found: set<nat>)
    requires Scanned(g, txs, i, slots, have, count, found) && count == |g.ids|
    ensures Scanned(g, txs, |txs|, slots, have, count, found)
  {
    hide Apart, Routes, Agrees;
    if g.clean {
      SubsetFull(found, g.ids.Keys);
      assert txs[..|txs|] == txs;
      MoreHits(g.ids, g.short, txs, i);
    }
  }

  lemma MoreHits(ids: map<nat, nat>, short: Tx -> nat, txs: seq<Tx>, i: nat)
    requires i <= |txs|
    ensures Hits(ids, short, txs[..i]) <= Hits(ids, short, txs) <= ids.Keys
  {
  }

  lemma ScanEnd(g: Scan, txs: seq<Tx>, slots: Slots, have: seq<bool>, count: int, found: set<nat>)
    requires Scanned(g, txs, |txs|, slots, have, count, found)
    ensures |slots| == |have| && (g.good ==> Agrees(slots, g.block))
    ensures g.clean ==> Filled(g.ids, g.slots, slots, have, found) && count == |found|
    ensures g.clean ==> found == g.before + Hits(g.ids, g.short, txs)
    ensures g.clean && g.before == {} ==> found == Hits(g.ids, g.short, txs)
  {
    hide Filled, Apart, Hits, Routes, Agrees;
    assert txs[..|txs|] == txs;
  }

  lemma {:induction false} EmptiesIncrease(slots: Slots, p: nat)
    requires p <= |slots|
    ensures forall i :: 0 <= i < |Empties(slots, p)| ==>
      p <= Empties(slots, p)[i] < |slots| && slots[Empties(slots, p)[i]].None?
    ensures forall i, j :: 0 <= i < j < |Empties(slots, p)| ==> Empties(slots, p)[i] < Empties(slots, p)[j]
    ensures forall q :: p <= q < |slots| && slots[q].None? ==> q in Empties(slots, p)
    decreases |slots| - p
  {
    if p < |slots| { EmptiesIncrease(slots, p + 1); }
  }

  lemma NothingFilled(ids: map<nat, nat>, shortTxIds: seq<nat>, slots: Slots, have: seq<bool>)
    requires Leads(ids, shortTxIds, Empties(slots, 0), |shortTxIds|)
    requires OneToOne(ids, shortTxIds, Empties(slots, 0), |shortTxIds|)
    requires |ids| == |shortTxIds| && |have| == |slots| && forall p :: 0 <= p < |have| ==> !have[p]
    ensures Apart(ids) && Filled(ids, slots, slots, have, {})
  {
    hide OneToOne, Empties, Leads;
    EmptiesIncrease(slots, 0);
    var empties := Empties(slots, 0);
    forall s, u | s in ids && u in ids && s != u ensures ids[s] != ids[u] {
      LeadsApart(ids, shortTxIds, empties, s, u);
    }
    forall s | s in ids ensures ids[s] < |slots| && slots[ids[s]].None? {
      LeadsEmpty(ids, shortTxIds, empties, slots, s);
    }
  }

  lemma LeadsApart(ids: map<nat, nat>, shortTxIds: seq<nat>, empties: seq<nat>, s: nat, u: nat)
    requires Leads(ids, shortTxIds, empties, |shortTxIds|) && s in ids && u in ids && s != u
    requires forall i, j :: 0 <= i < j < |empties| ==> empties[i] < empties[j]
    ensures ids[s] != ids[u]
  {
    var i :| 0 <= i < |shortTxIds| && shortTxIds[i] == s && ids[s] == empties[i];
    var j :| 0 <= j < |shortTxIds| && shortTxIds[j] == u && ids[u] == empties[j];
    assert if i < j then empties[i] < empties[j] else empties[j] < empties[i];
  }

  lemma LeadsEmpty(ids: map<nat, nat>, shortTxIds: seq<nat>, empties: seq<nat>, slots: Slots, s: nat)
    requires Leads(ids, shortTxIds, empties, |shortTxIds|) && s in ids
    requires forall i :: 0 <= i < |empties| ==> empties[i] < |slots| && slots[empties[i]].None?
    ensures ids[s] < |slots| && slots[ids[s]].None?
  {
  }

  lemma FoundInPools(c: Compact, short: Tx -> nat, block: seq<Tx>, pool: seq<Tx>, extra: seq<Tx>, ids: map<nat, nat>,
                     empties: seq<nat>, p: nat)
    requires Encodes(c, short, block) && Injective(short, block, pool, extra)
    requires empties == Others(c.prefilledTxn, 0, |block|)
    requires OneToOne(ids, c.shortTxIds, empties, |c.shortTxIds|) && |ids| == |c.shortTxIds| && p in empties
    ensures p < |block| && short(block[p]) in ids && ids[short(block[p])] == p
    ensures short(block[p]) in Hits(ids, short, pool) + Hits(ids, short, extra) <==>
      block[p] in pool || block[p] in extra
  {
    hide At, Repeats;
    var i :| 0 <= i < |empties| && empties[i] == p;
    assert block[p] in block && c.shortTxIds[i] == short(block[p]);
  }

  lemma FilledIsStocked(c: Compact, short: Tx -> nat, block: seq<Tx>, pool: seq<Tx>, extra: seq<Tx>, slots0: Slots,
                        ids: map<nat, nat>, slots: Slots, have: seq<bool>, found: set<nat>)
    requires Encodes(c, short, block) && Injective(short, block, pool, extra)
    requires Placed(c, |c.prefilledTxn|, block, slots0)
    requires var empties := Empties(slots0, 0);
      Leads(ids, c.shortTxIds, empties, |c.shortTxIds|) && OneToOne(ids, c.shortTxIds, empties, |c.shortTxIds|)
    requires |ids| == |c.shortTxIds| && Filled(ids, slots0, slots, have, found)
    requires found == Hits(ids, short, pool) + Hits(ids, short, extra)
    ensures Stocked(c, block, pool, extra, slots)
  {
    hide Taken, Repeats, Empties, Others, Encodes, Injective, OneToOne, Hits, Leads;
    EmptiesIncrease(slots0, 0);
    EmptiesAreOthers(c, block, slots0, 0);
    var empties := Empties(slots0, 0);
    forall p | 0 <= p < |slots|
      ensures slots[p].Some? <==> Taken(c.prefilledTxn, |c.prefilledTxn|, p) || block[p] in pool || block[p] in extra
    {
      if !Taken(c.prefilledTxn, |c.prefilledTxn|, p) {
        FoundInPools(c, short, block, pool, extra, ids, empties, p);
      } else {
        NotRouted(ids, c.shortTxIds, empties, slots0, p);
      }
    }
  }

  lemma NotRouted(ids: map<nat, nat>, shortTxIds: seq<nat>, empties: seq<nat>, slots: Slots, p: nat)
    requires Leads(ids, shortTxIds, empties, |shortTxIds|) && p < |slots| && slots[p].Some?
    requires forall i :: 0 <= i < |empties| ==> empties[i] < |slots| && slots[empties[i]].None?
    ensures p !in ids.Values
  {
  }

  class PartialBlock {
    var headerIsNull: bool
    var txnsAvailable: Slots
    var haveTxn: seq<bool>
    var mempoolCount: int
    var extraCount: int

    constructor ()
      ensures headerIsNull && txnsAvailable == []
    {
      headerIsNull, txnsAvailable, haveTxn, mempoolCount, extraCount := true, [], [], 0, 0;
    }

    /** A transaction of the pool claims a slot: it fills it, or empties it if it was filled. */
    method ClaimFromPool(slot: nat, tx: Tx)
      requires slot < |txnsAvailable| == |haveTxn|
      modifies this`txnsAvailable, this`haveTxn, this`mempoolCount
      ensures haveTxn == old(haveTxn)[slot := true]
      ensures txnsAvailable == old(txnsAvailable)[slot := if old(haveTxn)[slot] then None else Some(tx)]
      ensures mempoolCount == old(mempoolCount) +
        if !old(haveTxn)[slot] then 1 else if old(txnsAvailable)[slot].Some? then -1 else 0
    {
      if !haveTxn[slot] {
        txnsAvailable := txnsAvailable[slot := Some(tx)];
        haveTxn := haveTxn[slot := true];
        mempoolCount := mempoolCount + 1;
      } else if txnsAvailable[slot].Some? {
        txnsAvailable := txnsAvailable[slot := None];
        mempoolCount := mempoolCount - 1;
      }
    }

    /** An extra transaction claims a slot: it fills it, or empties it if it holds another. */
    method ClaimFromExtra(slot: nat, tx: Tx)
      requires slot < |txnsAvailable| == |haveTxn|
      modifies this`txnsAvailable, this`haveTxn, this`mempoolCount, this`extraCount
      ensures haveTxn == old(haveTxn)[slot := true]
      ensures txnsAvailable == old(txnsAvailable)[slot :=
        if !old(haveTxn)[slot] || old(txnsAvailable)[slot] == Some(tx) then Some(tx) else None]
      ensures mempoolCount - old(mempoolCount) == extraCount - old(extraCount) ==
        if !old(haveTxn)[slot] then 1 else if old(txnsAvailable)[slot] in {None, Some(tx)} then 0 else -1
    {
      if !haveTxn[slot] {
        txnsAvailable := txnsAvailable[slot := Some(tx)];
        haveTxn := haveTxn[slot := true];
        mempoolCount := mempoolCount + 1;
        extraCount := extraCount + 1;
      } else if txnsAvailable[slot].Some? && txnsAvailable[slot].value != tx {
        txnsAvailable := txnsAvailable[slot := None];
        mempoolCount := mempoolCount - 1;
        extraCount := extraCount - 1;
      }
    }

    /** Fills slots from the memory pool; a slot claimed twice is emptied again.  With short ids
        unambiguous and no transaction twice in the pool, all that are in it are found. */
    method ScanPool(ids: map<nat, nat>, short: Tx -> nat, pool: seq<Tx>, ghost block: seq<Tx>, ghost good: bool,
                    ghost clean: bool)
      returns (ghost found: set<nat>)
      requires InRange(ids, |txnsAvailable|) && |haveTxn| == |txnsAvailable|
      requires good ==> Agrees(txnsAvailable, block) && Routes(ids, short, block, pool)
      requires clean ==> good && Apart(ids) && NoRepeats(pool) && mempoolCount == 0
      requires clean ==> Filled(ids, txnsAvailable, txnsAvailable, haveTxn, {})
      modifies this`txnsAvailable, this`haveTxn, this`mempoolCount
      ensures |haveTxn| == |txnsAvailable| == old(|txnsAvailable|)
      ensures good ==> Agrees(txnsAvailable, block)
      ensures clean ==> Filled(ids, old(txnsAvailable), txnsAvailable, haveTxn, found) && mempoolCount == |found|
      ensures clean ==> found == Hits(ids, short, pool)
    {
      hide Filled, Apart, NoRepeats, Hits, Routes, Agrees, Scanned, Purposeful;
      found := {};
      ghost var g := Scan(ids, short, block, good, clean, txnsAvailable, {});
      ScanStart(g, pool, txnsAvailable, haveTxn, mempoolCount);
      var i := 0;
      while i < |pool|
        invariant 0 <= i <= |pool| && |haveTxn| == |txnsAvailable| == old(|txnsAvailable|)
        invariant Scanned(g, pool, i, txnsAvailable, haveTxn, mempoolCount, found)
      {
        var tx := pool[i];
        PoolStep(g, pool, i, txnsAvailable, haveTxn, mempoolCount, found);
        if short(tx) in ids {
          ClaimFromPool(ids[short(tx)], tx);
          found := found + {short(tx)};
        }
        i := i + 1;
        if mempoolCount == |ids| {
          AllFound(g, pool, i, txnsAvailable, haveTxn, mempoolCount, found);
          i := |pool|;
        }
      }
      ScanEnd(g, pool, txnsAvailable, haveTxn, mempoolCount, found);
    }

    /** Fills slots from the extra transactions; a slot claimed by a different one is emptied.  With
        short ids unambiguous, all that are among them are found. */
    method ScanExtra(ids: map<nat, nat>, short: Tx -> nat, extra: seq<Tx>, ghost block: seq<Tx>, ghost good: bool,
                     ghost clean: bool, ghost before: set<nat>, ghost slots: Slots)
      returns (ghost found: set<nat>)
      requires InRange(ids, |txnsAvailable|) && |haveTxn| == |txnsAvailable| == |slots|
      requires good ==> Agrees(txnsAvailable, block) && Routes(ids, short, block, extra)
      requires clean ==>
        good && Apart(ids) && Filled(ids, slots, txnsAvailable, haveTxn, before) && mempoolCount == |before|
      modifies this`txnsAvailable, this`haveTxn, this`mempoolCount, this`extraCount
      ensures |haveTxn| == |txnsAvailable| == old(|txnsAvailable|)
      ensures good ==> Agrees(txnsAvailable, block)
      ensures clean ==> Filled(ids, slots, txnsAvailable, haveTxn, found) && found == before + Hits(ids, short, extra)
    {
      hide Filled, Apart, Hits, Routes, Agrees, Scanned, Purposeful;
      found := before;
      ghost var g := Scan(ids, short, block, good, clean, slots, before);
      ScanStart(g, extra, txnsAvailable, haveTxn, mempoolCount);
      var i := 0;
      while i < |extra|
        invariant 0 <= i <= |extra| && |haveTxn| == |txnsAvailable| == old(|txnsAvailable|)
        invariant Scanned(g, extra, i, txnsAvailable, haveTxn, mempoolCount, found)
      {
        var tx := extra[i];
        ExtraStep(g, extra, i, txnsAvailable, haveTxn, mempoolCount, found);
        if short(tx) in ids {
          ClaimFromExtra(ids[short(tx)], tx);
          found := found + {short(tx)};
        }
        i := i + 1;
        if mempoolCount == |ids| {
          AllFound(g, extra, i, txnsAvailable, haveTxn, mempoolCount, found);
          i := |extra|;
        }
      }
      ScanEnd(g, extra, txnsAvailable, haveTxn, mempoolCount, found);
    }

    /** Takes a compact block apart.  It is invalid exactly if it is empty, too large, without a header or out of
        line, and fails otherwise exactly if short ids repeat or crowd a bucket.  If it encodes a block and short ids
        are unambiguous, what is put in the slots is right.  If moreover the pool has no transaction twice, the
        slots left empty are those of the transactions it does not have. */
    method InitData(c: Compact, short: Tx -> nat, pool: seq<Tx>, extra: seq<Tx>, maxTxs: nat, crowded: nat -> bool,
                    ghost block: seq<Tx>) returns (status: Status)
      requires headerIsNull && txnsAvailable == [] && maxTxs <= TWO_32
      modifies this
      ensures status == Ok || status == Invalid || status == Failed
      ensures status == Ok ==> !headerIsNull && |txnsAvailable| == |c.shortTxIds| + |c.prefilledTxn|
      ensures status == Invalid <==>
        || c.headerIsNull || |c.shortTxIds| + |c.prefilledTxn| == 0 || |c.shortTxIds| + |c.prefilledTxn| > maxTxs
        || !InLine(c, |c.prefilledTxn|)
      ensures status == Failed <==>
        && status != Invalid
        && ((exists i :: 0 <= i < |c.shortTxIds| && crowded(i)) || Repeats(c.shortTxIds, |c.shortTxIds|))
      ensures Encodes(c, short, block) && Injective(short, block, pool, extra) ==>
        && (status == Ok ==> Agrees(txnsAvailable, block))
        && (!c.headerIsNull && 0 < |block| <= maxTxs ==> status != Invalid)
        && (status == Ok && NoRepeats(pool) ==> Stocked(c, block, pool, extra, txnsAvailable))
    {
      hide Encodes, Injective, Placed, Leads, OneToOne, Agrees, Routes, Filled, Apart, NoRepeats, Stocked, Repeats,
           InLine;
      ghost var good := Encodes(c, short, block) && Injective(short, block, pool, extra);
      ghost var clean := good && NoRepeats(pool);
      EncodesCounts(c, short, block);
      if c.headerIsNull || (|c.shortTxIds| == 0 && |c.prefilledTxn| == 0) { return Invalid; }
      if |c.shortTxIds| + |c.prefilledTxn| > maxTxs { return Invalid; }
      headerIsNull := false;
      txnsAvailable := seq(|c.shortTxIds| + |c.prefilledTxn|, _ => None);
      var placed := PlacePrefilled(c, short, block);
      if placed.None? { return Invalid; }
      txnsAvailable := placed.value;
      ghost var slots := txnsAvailable;
      var ids := IndexShortIds(c.shortTxIds, txnsAvailable, crowded);
      if ids.None? { return Failed; }
      IndexInRange(ids.value, c.shortTxIds, txnsAvailable);
      if good { IndexRoutes(c, short, block, txnsAvailable, ids.value, pool, extra); }
      haveTxn := seq(|txnsAvailable|, _ => false);
      NothingFilled(ids.value, c.shortTxIds, txnsAvailable, haveTxn);
      mempoolCount, extraCount := 0, 0;
      ghost var found := ScanPool(ids.value, short, pool, block, good, clean);
      found := ScanExtra(ids.value, short, extra, block, good, clean, found, slots);
      if clean { FilledIsStocked(c, short, block, pool, extra, slots, ids.value, txnsAvailable, haveTxn, found); }
      return Ok;
    }

    /** Fills the empty slots with the transactions asked for, in order.  `check` is the verdict on
        the rebuilt block: passed, possibly corrupted, or invalid. */
    method FillBlock(vtxMissing: seq<Tx>, check: seq<Tx> -> Status, ghost block: seq<Tx>)
      returns (status: Status, vtx: seq<Tx>)
      requires !headerIsNull
      modifies this`headerIsNull, this`txnsAvailable
      ensures status == Invalid <==> |vtxMissing| != |Empties(old(txnsAvailable), 0)| || check(vtx) == Invalid
      ensures Agrees(old(txnsAvailable), block) && vtxMissing == MissingOf(old(txnsAvailable), block) ==>
        vtx == block && status == check(block)
      ensures status != Invalid ==> headerIsNull && txnsAvailable == []
    {
      ghost var slots := txnsAvailable;
      vtx := [];
      var offset, i := 0, 0;
      MissingCounts(slots, block);
      while i < |txnsAvailable|
        invariant txnsAvailable == slots && 0 <= i <= |slots| && 0 <= offset <= |vtxMissing| && |vtx| == i
        invariant Agrees(slots, block) ==> |slots| == |block|
        invariant offset + |Empties(slots, i)| == |Empties(slots, 0)|
        invariant Agrees(slots, block) && vtxMissing == MissingOf(slots, block) ==> vtx == block[..i]
      {
        hide Agrees;
        if txnsAvailable[i].None? {
          if |vtxMissing| <= offset {
            status := Invalid;
            return;
          }
          FillStep(slots, block, i, offset, vtxMissing);
          vtx := vtx + [vtxMissing[offset]];
          offset := offset + 1;
        } else {
          FillStep(slots, block, i, offset, vtxMissing);
          vtx := vtx + [txnsAvailable[i].value];
        }
        i := i + 1;
      }
      headerIsNull := true;
      txnsAvailable := [];
      if |vtxMissing| != offset {
        status := Invalid;
        return;
      }
      status := check(vtx);
      if Agrees(slots, block) { assert block[..|block|] == block; }
    }
  }

  lemma EncodesCounts(c: Compact, short: Tx -> nat, block: seq<Tx>)
    ensures Encodes(c, short, block) ==> |block| == |c.shortTxIds| + |c.prefilledTxn|
  {
  }

  /** The transactions of the empty slots, in order. */
  function MissingOf(slots: Slots, block: seq<Tx>): seq<Tx> {
    var empties := Empties(slots, 0);
    seq(|empties|, i requires 0 <= i < |empties| => if empties[i] < |block| then block[empties[i]] else 0)
  }

  lemma MissingCounts(slots: Slots, block: seq<Tx>)
    ensures |MissingOf(slots, block)| == |Empties(slots, 0)|
  {
  }

  /** The next transaction to place is the block's. */
  lemma FillStep(slots: Slots, block: seq<Tx>, i: nat, offset: nat, missing: seq<Tx>)
    requires i < |slots| && offset + |Empties(slots, i)| == |Empties(slots, 0)|
    ensures slots[i].None? ==> |Empties(slots, i)| == 1 + |Empties(slots, i + 1)|
    ensures slots[i].Some? ==> Empties(slots, i) == Empties(slots, i + 1)
    ensures Agrees(slots, block) && missing == MissingOf(slots, block) ==>
      && i < |block| && (slots[i].None? ==> offset < |missing| && missing[offset] == block[i])
      && (slots[i].Some? ==> slots[i].value == block[i]) && block[..i + 1] == block[..i] + [block[i]]
  {
    hide MissingOf, Empties;
    EmptiesSuffix(slots, i);
    EmptiesFrom(slots, i);
    if slots[i].None? {
      SuffixStarts(Empties(slots, 0), Empties(slots, i), offset);
      if Agrees(slots, block) { MissingIs(slots, block, offset); }
    }
  }

  lemma SuffixStarts(all: seq<nat>, rest: seq<nat>, offset: nat)
    requires offset + |rest| == |all| && rest == all[offset..] && rest != []
    ensures all[offset] == rest[0]
  {
  }

  lemma MissingIs(slots: Slots, block: seq<Tx>, k: nat)
    requires Agrees(slots, block) && k < |Empties(slots, 0)| && Empties(slots, 0)[k] < |block|
    ensures k < |MissingOf(slots, block)| && MissingOf(slots, block)[k] == block[Empties(slots, 0)[k]]
  {
    hide Empties;
  }

  lemma EmptiesFrom(slots: Slots, i: nat)
    requires i < |slots|
    ensures Empties(slots, i) == if slots[i].None? then [i] + Empties(slots, i + 1) else Empties(slots, i + 1)
  {
  }

  lemma {:induction false} EmptiesSuffix(slots: Slots, i: nat)
    requires i <= |slots|
    ensures |Empties(slots, i)| <= |Empties(slots, 0)|
    ensures Empties(slots, i) == Empties(slots, 0)[|Empties(slots, 0)| - |Empties(slots, i)|..]
    decreases i
  {
    if i > 0 { EmptiesSuffix(slots, i - 1); }
  }
}
