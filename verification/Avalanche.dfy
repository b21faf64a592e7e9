/** The Avalanche processor: outstanding queries, one vote record per block under vote, and the
    updates it reports as votes come in. */
module Avalanche {
  import opened Arithmetic
  import opened VoteRecord
  import PollSlots

  // ---------------------------------------------------------------- the record as an object

  class Recorder {
    var confidence: nat
    var votes: bv8
    var consider: bv8
    var inflight: nat
    var successfulVotes: nat
    const nodeFilter: array<nat>

    ghost predicate Valid()
      reads this
    {
      nodeFilter.Length == QUORUM && inflight < 256
    }

    ghost function Value(): Record
      reads this, nodeFilter
    {
      Record(confidence, votes, consider, inflight, successfulVotes, nodeFilter[..])
    }

    constructor (accepted: bool)
      ensures Valid() && fresh(nodeFilter) && Value() == NewRecord(accepted)
    {
      confidence, votes, consider, inflight, successfulVotes := One(accepted), 0, 0, 0, 0;
      nodeFilter := new nat[QUORUM](_ => 0);
      new;
      assert nodeFilter[..] == NewRecord(accepted).filter;
    }

    method ClearInflightRequest(count: nat)
      requires Valid() && count < 256
      modifies this`inflight
      ensures Valid() && Value() == old(Value()).(inflight := PollSlots.After(old(inflight), PollSlots.Clear(count)))
    {
      inflight := (inflight + 256 - count) % 256;
    }

    /** Takes one of the ten places for requests in flight, if there is one. */
    method RegisterPoll() returns (polled: bool)
      requires Valid()
      modifies this`inflight
      ensures Valid() && (polled <==> old(inflight) < MAX_INFLIGHT_POLL)
      ensures Value() == old(Value()).(inflight := PollSlots.After(old(inflight), PollSlots.Poll))
      ensures inflight == old(inflight) + One(polled)
      ensures old(inflight) <= MAX_INFLIGHT_POLL ==> inflight <= MAX_INFLIGHT_POLL
    {
      if inflight < MAX_INFLIGHT_POLL {
        inflight := inflight + 1;
        return true;
      }
      return false;
    }

    method AddNodeToQuorum(nodeid: int) returns (added: bool)
      requires Valid()
      modifies this`successfulVotes, nodeFilter
      ensures Valid() && (Value(), added) == VoteRecord.AddNodeToQuorum(old(Value()), nodeid)
    {
      hide NodeHash;
      if nodeid == NO_NODE { return true; }
      var h := NodeHash(nodeid);
      var i := 1;
      while i < QUORUM
        invariant 1 <= i <= QUORUM
        invariant forall j :: 1 <= j < i ==> RingAt(nodeFilter[..], successfulVotes, j) != h
      {
        assert RingAt(nodeFilter[..], successfulVotes, i) == nodeFilter[(successfulVotes + i) % QUORUM];
        if nodeFilter[(successfulVotes + i) % QUORUM] == h { return false; }
        i := i + 1;
      }
      ghost var filter := nodeFilter[..];
      nodeFilter[successfulVotes % QUORUM] := h;
      assert nodeFilter[..] == filter[successfulVotes % QUORUM := h];
      successfulVotes := (successfulVotes + 1) % TWO_32;
      return true;
    }

    /** Registers a vote; true if the state changed or became final. */
    method Register(nodeid: int, error: nat) returns (changed: bool)
      requires Valid()
      modifies this, nodeFilter
      ensures Valid() && (Value(), changed) == RegisterVote(old(Value()), Vote(nodeid, error))
    {
      hide VoteRecord.AddNodeToQuorum, RoundOf, Judge, Shift;
      ClearInflightRequest(1);
      var added := AddNodeToQuorum(nodeid);
      if !added { return false; }
      votes := Shift(votes, error == 0);
      consider := Shift(consider, error < 0x8000_0000);
      var round := CountRound();
      changed := Conclude(round);
    }

    method CountRound() returns (round: Round)
      ensures round == RoundOf(votes, consider)
    {
      var yes := CountBits((votes & consider) as bv32 & 0xFF) > 6;
      if !yes {
        var no := CountBits((!votes & consider) as bv32 & 0xFF) > 6;
        if !no { return Inconclusive; }
      }
      return if yes then Pass else Fail;
    }

    /** Confidence rises with agreement and starts over when the state flips. */
    method Conclude(round: Round) returns (changed: bool)
      modifies this`confidence
      ensures (confidence, changed) == Judge(old(confidence), round)
    {
      if round == Inconclusive { return false; }
      var yes := round == Pass;
      if (confidence % 2 == 1) == yes {
        confidence := (confidence + 2) % TWO_16;
        return confidence / 2 == FINALIZATION_SCORE;
      }
      confidence := One(yes);
      return true;
    }
  }

  // ---------------------------------------------------------------- updates

  datatype Status = Invalid | Rejected | Accepted | Finalized

  /** The status reported for a record that changed. */
  function StatusOf(r: Record): Status {
    if !HasFinalized(r) then (if IsAccepted(r) then Accepted else Rejected)
    else (if IsAccepted(r) then Finalized else Invalid)
  }

  /** The state after so many flips. */
  predicate Flipped(initial: bool, flips: nat) { if flips % 2 == 0 then initial else !initial }

  /** Updates that alternate, starting with the opposite of the initial state. */
  predicate Alternate(initial: bool, updates: seq<Status>) {
    forall i :: 0 <= i < |updates| ==> updates[i] == if Flipped(initial, i + 1) then Accepted else Rejected
  }

  /** Alternating updates and then one terminal status, that of the last state. */
  predicate Concluded(initial: bool, updates: seq<Status>) {
    && |updates| > 0 && Alternate(initial, updates[..|updates| - 1])
    && updates[|updates| - 1] == if Flipped(initial, |updates| - 1) then Finalized else Invalid
  }

  /** What happened to a block since it was added. */
  datatype Life = Life(log: Log, updates: seq<Status>)

  /** A record under vote: never final, and its updates so far tell its state. */
  ghost predicate UnderVote(r: Record, life: Life) {
    && Tracks(r, life.log) && !HasFinalized(r) && SpreadOut(life.log.hashes) && Named(life.log)
    && Alternate(life.log.initial, life.updates)
    && (IsAccepted(r) <==> Flipped(life.log.initial, |life.updates|))
  }

  /** A vote that ended: one terminal update, earned by the votes counted, any eight of them in a row
      from eight different nodes. */
  ghost predicate Ended(life: Life) {
    && Concluded(life.log.initial, life.updates)
    && Earned(life.log, Flipped(life.log.initial, |life.updates| - 1))
    && SpreadOut(life.log.hashes) && Named(life.log)
  }

  function LiveVote(life: Life, r: Record, v: Vote): Life
    requires |r.filter| == QUORUM
  {
    var (r', changed) := RegisterVote(r, v);
    Lived(life, r', changed, v)
  }

  function Lived(life: Life, r': Record, changed: bool, v: Vote): Life {
    Life(LogVote(life.log, v), if changed then life.updates + [StatusOf(r')] else life.updates)
  }

  lemma ConfidenceStep(r: Record, v: Vote)
    requires |r.filter| == QUORUM && r.confidence < TWO_16 && !HasFinalized(r)
    ensures var (r', changed) := RegisterVote(r, v);
      && GetConfidence(r') <= FINALIZATION_SCORE
      && (HasFinalized(r') ==> changed && IsAccepted(r') == IsAccepted(r))
      && (changed && !HasFinalized(r') ==> IsAccepted(r') != IsAccepted(r))
      && (!changed ==> IsAccepted(r') == IsAccepted(r))
  {
    hide NodeHash, RoundOf, InRing, Shift;
  }

  /** One vote keeps a block under vote, or concludes it with a single terminal update. */
  lemma VoteLives(r: Record, life: Life, v: Vote)
    requires UnderVote(r, life)
    ensures |r.filter| == QUORUM
    ensures var (r', changed), life' := RegisterVote(r, v), LiveVote(life, r, v);
      if changed && HasFinalized(r') then Ended(life')
      else UnderVote(r', life')
  {
    hide RegisterVote, LogVote, StatusOf, Concluded, Alternate, Earned, SpreadOut, Named, Flipped;
    assert |r.filter| == QUORUM by { TracksRing(r, life.log); }
    RegisterTracks(r, life.log, v);
    ConfidenceSmall(r, life.log);
    ConfidenceStep(r, v);
    InitialStays(life.log, v);
    StatusCases(RegisterVote(r, v).0);
    AlternateOn(life.log.initial, life.updates, StatusOf(RegisterVote(r, v).0));
    LogVoteSpreads(life.log, v);
    if HasFinalized(RegisterVote(r, v).0) { FinalIsEarned(RegisterVote(r, v).0, LogVote(life.log, v)); }
  }

  lemma ConfidenceSmall(r: Record, log: Log)
    requires Tracks(r, log)
    ensures r.confidence < TWO_16
  {
  }

  lemma InitialStays(log: Log, v: Vote)
    ensures LogVote(log, v).initial == log.initial
  {
  }

  lemma StatusCases(r: Record)
    ensures HasFinalized(r) ==> StatusOf(r) == if IsAccepted(r) then Finalized else Invalid
    ensures !HasFinalized(r) ==> StatusOf(r) == if IsAccepted(r) then Accepted else Rejected
  {
  }

  lemma AlternateOn(initial: bool, updates: seq<Status>, s: Status)
    requires Alternate(initial, updates)
    ensures (s == if Flipped(initial, |updates| + 1) then Accepted else Rejected) ==> Alternate(initial, updates + [s])
    ensures (s == if Flipped(initial, |updates|) then Finalized else Invalid) ==> Concluded(initial, updates + [s])
    ensures Flipped(initial, |updates| + 1) <==> !Flipped(initial, |updates|)
  {
    assert (updates + [s])[..|updates|] == updates;
  }

  // ---------------------------------------------------------------- the processor

  type Block = nat
  type BlockHash = nat

  datatype BlockVote = BlockVote(hash: BlockHash, error: nat)

  class Processor {
    var queries: map<(int, nat), seq<BlockHash>>
    var voteRecords: map<Block, Record>
    ghost var lives: map<Block, Life>
    ghost var ended: seq<Life>

    /** Every stored record is under vote, below the finalisation score, and every life that ended
        did so with exactly one terminal update, earned by the votes counted. */
    ghost predicate Valid()
      reads this
    {
      && lives.Keys == voteRecords.Keys
      && (forall b :: b in voteRecords ==> UnderVote(voteRecords[b], lives[b]))
      && forall i :: 0 <= i < |ended| ==> Ended(ended[i])
    }

    constructor ()
      ensures Valid() && voteRecords == map[] && queries == map[] && ended == []
    {
      queries, voteRecords, lives, ended := map[], map[], map[], [];
    }

    /** Starts a vote on a block unless there is one. */
    method AddBlockToReconcile(block: Block, worthPolling: bool, accepted: bool) returns (added: bool)
      requires Valid()
      modifies this
      ensures Valid() && queries == old(queries) && ended == old(ended)
      ensures added <==> worthPolling && block !in old(voteRecords)
      ensures voteRecords == if added then old(voteRecords)[block := NewRecord(accepted)] else old(voteRecords)
    {
      if !worthPolling || block in voteRecords { return false; }
      NewTracks(accepted);
      hide NewRecord, Tracks;
      NewUnderVote(accepted);
      voteRecords := voteRecords[block := NewRecord(accepted)];
      lives := lives[block := Life(NewLog(accepted), [])];
      return true;
    }

    /** Registers one vote on one block; an update is reported exactly when the record changed, and
        a record that became final is removed. */
    method VoteOn(nodeid: int, block: Block, error: nat, updates0: seq<(Block, Status)>)
      returns (updates: seq<(Block, Status)>)
      requires Valid() && block in voteRecords
      modifies this
      ensures block in old(lives) && Valid() && queries == old(queries) && old(ended) <= ended
      ensures |old(voteRecords[block].filter)| == QUORUM
      ensures var (r, changed) := RegisterVote(old(voteRecords[block]), Vote(nodeid, error));
        && updates == (if changed then updates0 + [(block, StatusOf(r))] else updates0)
        && voteRecords ==
          (if changed && HasFinalized(r) then old(voteRecords) - {block} else old(voteRecords)[block := r])
        && ended == (if changed && HasFinalized(r)
                     then old(ended) + [Lived(old(lives[block]), r, changed, Vote(nodeid, error))]
                     else old(ended))
    {
      hide RegisterVote, StatusOf, UnderVote, Ended, Lived, HasFinalized;
      var v := Vote(nodeid, error);
      VoteLives(voteRecords[block], lives[block], v);
      var (r, changed) := RegisterVote(voteRecords[block], v);
      ghost var life := LiveVote(lives[block], voteRecords[block], v);
      updates := updates0;
      if changed { updates := updates + [(block, StatusOf(r))]; }
      if changed && HasFinalized(r) {
        voteRecords := voteRecords - {block};
        lives := lives - {block};
        ended := ended + [life];
      } else {
        voteRecords := voteRecords[block := r];
        lives := lives[block := life];
      }
    }

    /** Which blocks a response votes on: those known and worth polling, each by its first vote. */
    method IndexResponse(votes: seq<BlockVote>, blockIndex: map<BlockHash, Block>, worthPolling: set<Block>)
      returns (responseIndex: map<Block, nat>)
      ensures Indexed(blockIndex, worthPolling, votes, responseIndex)
    {
      responseIndex := map[];
      var i := 0;
      while i < |votes|
        invariant 0 <= i <= |votes|
        invariant forall b :: b in responseIndex <==>
          b in worthPolling && exists j :: 0 <= j < i && VotesOn(blockIndex, votes[j], b)
        invariant forall b :: b in responseIndex ==>
          exists j :: 0 <= j < i && FirstVote(blockIndex, votes, b, j) && responseIndex[b] == votes[j].error
      {
        var v := votes[i];
        if v.hash in blockIndex && blockIndex[v.hash] in worthPolling && blockIndex[v.hash] !in responseIndex {
          assert VotesOn(blockIndex, votes[i], blockIndex[v.hash]);
          assert FirstVote(blockIndex, votes, blockIndex[v.hash], i);
          responseIndex := responseIndex[blockIndex[v.hash] := v.error];
        }
        i := i + 1;
      }
    }

    /** Gives every block under vote its one vote of a response. */
    method VoteAll(nodeid: int, responseIndex: map<Block, nat>) returns (updates: seq<(Block, Status)>)
      requires Valid()
      modifies this
      ensures Valid() && queries == old(queries) && voteRecords.Keys <= old(voteRecords).Keys
      ensures forall b :: b in old(voteRecords) && b !in responseIndex ==>
        b in voteRecords && voteRecords[b] == old(voteRecords)[b]
      ensures forall b :: b in old(voteRecords) && b in responseIndex ==>
        Settled(old(voteRecords)[b], Vote(nodeid, responseIndex[b]), b, voteRecords, updates)
      ensures forall i :: 0 <= i < |updates| ==> updates[i].0 in responseIndex && updates[i].0 in old(voteRecords)
      ensures forall i, j :: 0 <= i < j < |updates| ==> updates[i].0 != updates[j].0
    {
      hide UnderVote, Concluded, RegisterVote, StatusOf, HasFinalized, Settled, Processor.Valid;
      updates := [];
      var todo := responseIndex.Keys;
      while todo != {}
        invariant Valid() && todo <= responseIndex.Keys && queries == old(queries)
        invariant voteRecords.Keys <= old(voteRecords).Keys
        invariant forall b :: b in old(voteRecords) && (b !in responseIndex || b in todo) ==>
          b in voteRecords && voteRecords[b] == old(voteRecords)[b]
        invariant forall b :: b in old(voteRecords) && b in responseIndex && b !in todo ==>
          Settled(old(voteRecords)[b], Vote(nodeid, responseIndex[b]), b, voteRecords, updates)
        invariant forall i :: 0 <= i < |updates| ==>
          updates[i].0 in responseIndex && updates[i].0 !in todo && updates[i].0 in old(voteRecords)
        invariant forall i, j :: 0 <= i < j < |updates| ==> updates[i].0 != updates[j].0
        decreases |todo|
      {
        var block :| block in todo;
        todo := todo - {block};
        if block in voteRecords {
          ghost var records, before := voteRecords, updates;
          updates := VoteOn(nodeid, block, responseIndex[block], updates);
          SettledNow(records, Vote(nodeid, responseIndex[block]), block, before, voteRecords, updates);
          forall b | b in old(voteRecords) && b in responseIndex && b !in todo && b != block
            ensures Settled(old(voteRecords)[b], Vote(nodeid, responseIndex[b]), b, voteRecords, updates)
          {
            SettledStays(old(voteRecords)[b], Vote(nodeid, responseIndex[b]), b, records, before, voteRecords, updates,
                block);
          }
        }
      }
    }

    /** Handles a response: it must answer a query sent to that node, item by item.  Then every
        block it votes on gets exactly one vote, its first. */
    method RegisterVotes(nodeid: int, round: nat, votes: seq<BlockVote>, blockIndex: map<BlockHash, Block>,
                         worthPolling: set<Block>)
      returns (ok: bool, updates: seq<(Block, Status)>, ghost responseIndex: map<Block, nat>)
      requires Valid()
      modifies this
      ensures Valid() && queries == old(queries) - {(nodeid, round)}
      ensures ok <==> (nodeid, round) in old(queries) && Answers(old(queries)[(nodeid, round)], votes)
      ensures !ok ==> voteRecords == old(voteRecords) && updates == []
      ensures ok ==> Indexed(blockIndex, worthPolling, votes, responseIndex)
      ensures ok ==> forall b :: b in old(voteRecords) && b !in responseIndex ==>
        b in voteRecords && voteRecords[b] == old(voteRecords)[b]
      ensures ok ==> forall b :: b in old(voteRecords) && b in responseIndex ==>
        Settled(old(voteRecords)[b], Vote(nodeid, responseIndex[b]), b, voteRecords, updates)
      ensures forall i, j :: 0 <= i < j < |updates| ==> updates[i].0 != updates[j].0
    {
      hide Indexed, Settled, Answers;
      updates, responseIndex := [], map[];
      if (nodeid, round) !in queries {
        return false, updates, responseIndex;
      }
      var invs := queries[(nodeid, round)];
      queries := queries - {(nodeid, round)};
      ok := CheckAnswers(invs, votes);
      if !ok { return; }
      var index := IndexResponse(votes, blockIndex, worthPolling);
      responseIndex := index;
      updates := VoteAll(nodeid, index);
    }

    method CheckAnswers(invs: seq<BlockHash>, votes: seq<BlockVote>) returns (ok: bool)
      ensures ok <==> Answers(invs, votes)
    {
      if |votes| != |invs| { return false; }
      var i := 0;
      while i < |invs|
        invariant 0 <= i <= |invs| && forall j :: 0 <= j < i ==> invs[j] == votes[j].hash
      {
        if invs[i] != votes[i].hash { return false; }
        i := i + 1;
      }
      return true;
    }
  }

  predicate Answers(invs: seq<BlockHash>, votes: seq<BlockVote>) {
    |votes| == |invs| && forall i :: 0 <= i < |invs| ==> invs[i] == votes[i].hash
  }

  predicate VotesOn(blockIndex: map<BlockHash, Block>, v: BlockVote, b: Block) {
    v.hash in blockIndex && blockIndex[v.hash] == b
  }

  predicate FirstVote(blockIndex: map<BlockHash, Block>, votes: seq<BlockVote>, b: Block, i: int) {
    && 0 <= i < |votes| && VotesOn(blockIndex, votes[i], b)
    && forall j :: 0 <= j < i ==> !VotesOn(blockIndex, votes[j], b)
  }

  /** The blocks voted on are those known and worth polling, each with its first vote. */
  predicate Indexed(blockIndex: map<BlockHash, Block>, worthPolling: set<Block>, votes: seq<BlockVote>,
                    responseIndex: map<Block, nat>) {
    && (forall b :: b in worthPolling && (exists i :: 0 <= i < |votes| && VotesOn(blockIndex, votes[i], b)) ==>
          b in responseIndex)
    && responseIndex.Keys <= worthPolling
    && forall b :: b in responseIndex ==>
         exists i :: 0 <= i < |votes| && FirstVote(blockIndex, votes, b, i) && responseIndex[b] == votes[i].error
  }

  /** A block's record is the old one with the vote registered, gone if that made it final, and an
      update is reported exactly if the vote changed it. */
  predicate Settled(was: Record, v: Vote, b: Block, records: map<Block, Record>, updates: seq<(Block, Status)>) {
    && |was.filter| == QUORUM
    && var (r, changed) := RegisterVote(was, v);
    && (if changed && HasFinalized(r) then b !in records else b in records && records[b] == r)
    && (changed ==> (b, StatusOf(r)) in updates)
    && (!changed ==> forall i :: 0 <= i < |updates| ==> updates[i].0 != b)
  }

  lemma SettledNow(records: map<Block, Record>, v: Vote, b: Block, before: seq<(Block, Status)>,
                   records': map<Block, Record>, updates: seq<(Block, Status)>)
    requires b in records && |records[b].filter| == QUORUM
    requires forall i :: 0 <= i < |before| ==> before[i].0 != b
    requires var (r, changed) := RegisterVote(records[b], v);
      && updates == (if changed then before + [(b, StatusOf(r))] else before)
      && records' == (if changed && HasFinalized(r) then records - {b} else records[b := r])
    ensures Settled(records[b], v, b, records', updates)
  {
    hide RegisterVote, StatusOf, HasFinalized;
    var (r, changed) := RegisterVote(records[b], v);
    if changed { assert updates[|before|] == (b, StatusOf(r)); }
  }

  lemma SettledStays(was: Record, v: Vote, b: Block, records: map<Block, Record>, before: seq<(Block, Status)>,
                     records': map<Block, Record>, updates: seq<(Block, Status)>, block: Block)
    requires Settled(was, v, b, records, before) && b != block
    requires b in records <==> b in records'
    requires b in records ==> records'[b] == records[b]
    requires before <= updates && forall i :: |before| <= i < |updates| ==> updates[i].0 == block
    ensures Settled(was, v, b, records', updates)
  {
    hide RegisterVote, StatusOf, HasFinalized;
    var (r, changed) := RegisterVote(was, v);
    if changed {
      var i :| 0 <= i < |before| && before[i] == (b, StatusOf(r));
      assert updates[i] == (b, StatusOf(r));
    }
  }

  lemma NewUnderVote(accepted: bool)
    requires Tracks(NewRecord(accepted), NewLog(accepted))
    ensures UnderVote(NewRecord(accepted), Life(NewLog(accepted), []))
  {
    hide Tracks;
  }
}
