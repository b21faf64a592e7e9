/** The Avalanche vote record: a ring of recent voters, the last eight votes as bits, and a
    confidence that counts agreeing rounds. */
module VoteRecord {
  import opened Arithmetic
  import opened ByteFlags

  const FINALIZATION_SCORE := 128
  const MAX_INFLIGHT_POLL := 10
  const QUORUM := 8
  const NO_NODE := -1
  const TWO_16 := 0x1_0000
  const TWO_48 := 0x1_0000_0000_0000
  const TWO_64 := 0x1_0000_0000_0000_0000

  // ---------------------------------------------------------------- counting bits

  /** The portable population count: sums within groups, then across them by multiplication. */
  function CountBits(v0: bv32): bv32 {
    var v1 := v0 - ((v0 >> 1) & 0x55555555);
    var v := (v1 & 0x33333333) + ((v1 >> 2) & 0x33333333);
    (((v + (v >> 4)) & 0xF0F0F0F) * 0x1010101) >> 24
  }

  function BitSum(v: bv32): bv32 {
    (v & 1) + ((v >> 1) & 1) + ((v >> 2) & 1) + ((v >> 3) & 1) +
    ((v >> 4) & 1) + ((v >> 5) & 1) + ((v >> 6) & 1) + ((v >> 7) & 1)
  }

  lemma CountBitsOfByte(v: bv32)
    ensures CountBits(v & 0xFF) == BitSum(v & 0xFF)
  {
  }

  function One(b: bool): nat { if b then 1 else 0 }

  /** How many bits of a byte are set. */
  function Ones(v: bv8): nat {
    One(BitSet(v, 0)) + One(BitSet(v, 1)) + One(BitSet(v, 2)) + One(BitSet(v, 3)) +
    One(BitSet(v, 4)) + One(BitSet(v, 5)) + One(BitSet(v, 6)) + One(BitSet(v, 7))
  }

  /** More than six of eight bits: at most one is missing. */
  lemma MoreThanSix(v: bv8)
    ensures CountBits(v as bv32 & 0xFF) > 6 <==> Ones(v) >= 7
  {
    CountBitsOfByte(v as bv32);
    AllButOne(v);
    AllButOneOnes(v);
  }

  lemma AllButOne(v: bv8)
    ensures BitSum(v as bv32 & 0xFF) > 6 <==> v | (v + 1) == 0xFF
  {
  }

  lemma AllButOneOnes(v: bv8)
    ensures v | (v + 1) == 0xFF <==> Ones(v) >= 7
  {
  }

  // ---------------------------------------------------------------- the record

  /** A vote: zero is yes, an error below 2^31 is no, above it the node could not tell. */
  datatype Vote = Vote(node: int, error: nat)

  predicate Yes(v: Vote) { v.error == 0 }

  predicate Considered(v: Vote) { v.error < 0x8000_0000 }

  predicate No(v: Vote) { !Yes(v) && Considered(v) }

  datatype Record = Record(confidence: nat, votes: bv8, consider: bv8, inflight: nat, successfulVotes: nat,
                           filter: seq<nat>)

  function NewRecord(accepted: bool): Record {
    Record(One(accepted), 0, 0, 0, 0, seq(QUORUM, _ => 0))
  }

  predicate IsAccepted(r: Record) { r.confidence % 2 == 1 }

  function GetConfidence(r: Record): nat { r.confidence / 2 }

  predicate HasFinalized(r: Record) { GetConfidence(r) >= FINALIZATION_SCORE }

  /** A 16-bit hash of a node id, in 64-bit arithmetic. */
  function NodeHash(node: int): nat {
    var u := node % TWO_64;
    var r1 := (6364136223846793005 * u + 1442695040888963407) % TWO_64;
    var r2 := 11400714819323198485 * u % TWO_64;
    (r1 + r2) % TWO_64 / TWO_48
  }

  /** The hash is among the seven entries of the ring that the next vote does not overwrite. */
  predicate InRing(filter: seq<nat>, votes: nat, h: nat)
    requires |filter| == QUORUM
  {
    exists i :: 1 <= i < QUORUM && RingAt(filter, votes, i) == h
  }

  function RingAt(filter: seq<nat>, votes: nat, i: nat): nat
    requires |filter| == QUORUM
  {
    filter[(votes + i) % QUORUM]
  }

  /** Adds a node to the quorum unless it is one of the last voters. */
  function AddNodeToQuorum(r: Record, node: int): (Record, bool)
    requires |r.filter| == QUORUM
  {
    if node == NO_NODE then (r, true)
    else
      var h := NodeHash(node);
      if InRing(r.filter, r.successfulVotes, h) then (r, false)
      else (r.(filter := r.filter[r.successfulVotes % QUORUM := h],
          successfulVotes := (r.successfulVotes + 1) % TWO_32), true)
  }

  function Shift(bits: bv8, b: bool): bv8 { (bits << 1) | (if b then 1 else 0) }

  datatype Round = Pass | Fail | Inconclusive

  /** The outcome of a round: more than six of the last eight votes one way. */
  function RoundOf(votes: bv8, consider: bv8): Round {
    if CountBits((votes & consider) as bv32 & 0xFF) > 6 then Pass
    else if CountBits((!votes & consider) as bv32 & 0xFF) > 6 then Fail
    else Inconclusive
  }

  /** The confidence after a round, and whether the state changed or became final. */
  function Judge(confidence: nat, round: Round): (nat, bool) {
    if round == Inconclusive then (confidence, false)
    else
      var yes := round == Pass;
      if (confidence % 2 == 1) == yes then
        var raised := (confidence + 2) % TWO_16;
        (raised, raised / 2 == FINALIZATION_SCORE)
      else (One(yes), true)
  }

  function RegisterVote(r: Record, v: Vote): (Record, bool)
    requires |r.filter| == QUORUM
  {
    var r0 := r.(inflight := (r.inflight + 255) % 256);
    var (r1, added) := AddNodeToQuorum(r0, v.node);
    if !added then (r1, false)
    else
      var votes, consider := Shift(r1.votes, Yes(v)), Shift(r1.consider, Considered(v));
      var (confidence, changed) := Judge(r1.confidence, RoundOf(votes, consider));
      (r1.(votes := votes, consider := consider, confidence := confidence), changed)
  }

  // ---------------------------------------------------------------- what a record stands for

  /** The history of a record: the votes it counted, the hashes of the nodes among them, and the
      rounds that were conclusive. */
  datatype Log = Log(initial: bool, votes: seq<Vote>, hashes: seq<nat>, rounds: seq<bool>)

  /** The k-th last hash; before the first there are zeros. */
  function Recent(hashes: seq<nat>, k: nat): nat
    requires k >= 1
  {
    if k <= |hashes| then hashes[|hashes| - k] else 0
  }

  /** The node is one of the last seven counted. */
  predicate Repeats(hashes: seq<nat>, node: int) {
    node != NO_NODE && exists k :: 1 <= k < QUORUM && Recent(hashes, k) == NodeHash(node)
  }

  /** Whether the k-th last vote exists and satisfies `p`. */
  predicate LastIs(votes: seq<Vote>, k: nat, p: Vote -> bool) {
    k < |votes| && p(votes[|votes| - 1 - k])
  }

  /** How many of the last eight votes satisfy `p`. */
  function Tally(votes: seq<Vote>, p: Vote -> bool): nat {
    One(LastIs(votes, 0, p)) + One(LastIs(votes, 1, p)) + One(LastIs(votes, 2, p)) + One(LastIs(votes, 3, p)) +
    One(LastIs(votes, 4, p)) + One(LastIs(votes, 5, p)) + One(LastIs(votes, 6, p)) + One(LastIs(votes, 7, p))
  }

  function Outcome(votes: seq<Vote>): Round {
    if Tally(votes, Yes) >= 7 then Pass
    else if Tally(votes, No) >= 7 then Fail
    else Inconclusive
  }

  function LogVote(log: Log, v: Vote): Log {
    if Repeats(log.hashes, v.node) then log
    else
      var votes := log.votes + [v];
      log.(votes := votes,
           hashes := if v.node == NO_NODE then log.hashes else log.hashes + [NodeHash(v.node)],
           rounds := if Outcome(votes) == Inconclusive then log.rounds else log.rounds + [Outcome(votes) == Pass])
  }

  // ---------------------------------------------------------------- the ring

  /** Where the k-th last of `n` hashes is kept. */
  function Slot(n: nat, k: nat): (slot: nat)
    requires 1 <= k <= QUORUM
    ensures slot < QUORUM
  {
    (n + QUORUM - k) % QUORUM
  }

  predicate RingTracks(filter: seq<nat>, successfulVotes: nat, hashes: seq<nat>) {
    && |filter| == QUORUM && successfulVotes == |hashes| % TWO_32
    && forall k :: 1 <= k <= QUORUM ==> filter[Slot(|hashes|, k)] == Recent(hashes, k)
  }

  lemma WrapHarmless(n: nat, i: nat)
    ensures (n % TWO_32 + i) % QUORUM == (n + i) % QUORUM
  {
    var q := n / TWO_32;
    assert n + i == (n % TWO_32 + i) + QUORUM * (q * (TWO_32 / QUORUM));
    ModShift(n % TWO_32 + i, q * (TWO_32 / QUORUM));
  }

  lemma ModShift(a: nat, q: nat)
    ensures (a + QUORUM * q) % QUORUM == a % QUORUM
  {
  }

  /** The ring holds the last eight hashes, so the search finds the node exactly if it is one of
      the last seven. */
  lemma RingSearch(filter: seq<nat>, successfulVotes: nat, hashes: seq<nat>, node: int)
    requires RingTracks(filter, successfulVotes, hashes) && node != NO_NODE
    ensures InRing(filter, successfulVotes, NodeHash(node)) <==> Repeats(hashes, node)
  {
    hide NodeHash;
    forall i | 1 <= i < QUORUM
      ensures RingAt(filter, successfulVotes, i) == Recent(hashes, QUORUM - i)
    {
      WrapHarmless(|hashes|, i);
      assert Slot(|hashes|, QUORUM - i) == (|hashes| + i) % QUORUM;
    }
    var h := NodeHash(node);
    if InRing(filter, successfulVotes, h) {
      var i :| 1 <= i < QUORUM && RingAt(filter, successfulVotes, i) == h;
      assert Recent(hashes, QUORUM - i) == h;
    }
    if Repeats(hashes, node) {
      var k :| 1 <= k < QUORUM && Recent(hashes, k) == h;
      assert RingAt(filter, successfulVotes, QUORUM - k) == h;
    }
  }

  lemma SlotsApart(n: nat, k: nat)
    requires 2 <= k <= QUORUM
    ensures Slot(n + 1, k) == Slot(n, k - 1)
    ensures Slot(n + 1, 1) == n % QUORUM
    ensures Slot(n + 1, k) != Slot(n + 1, 1)
  {
  }

  lemma RingAdds(filter: seq<nat>, successfulVotes: nat, hashes: seq<nat>, h: nat)
    requires RingTracks(filter, successfulVotes, hashes)
    ensures RingTracks(filter[successfulVotes % QUORUM := h], (successfulVotes + 1) % TWO_32, hashes + [h])
  {
    hide Slot;
    var n := |hashes|;
    WrapHarmless(n, 0);
    var filter' := filter[successfulVotes % QUORUM := h];
    forall k | 1 <= k <= QUORUM ensures filter'[Slot(n + 1, k)] == Recent(hashes + [h], k) {
      SlotsApart(n, if k == 1 then 2 else k);
      if k > 1 { assert Recent(hashes + [h], k) == Recent(hashes, k - 1); }
    }
    CountWraps(n);
  }

  lemma CountWraps(n: nat)
    ensures (n % TWO_32 + 1) % TWO_32 == (n + 1) % TWO_32
  {
  }

  // ---------------------------------------------------------------- the bits

  predicate BitsTrack(bits: bv8, votes: seq<Vote>, p: Vote -> bool) {
    forall k :: 0 <= k < 8 ==> (BitSet(bits, k) <==> LastIs(votes, k, p))
  }

  lemma ShiftBits(bits: bv8, b: bool, k: nat)
    requires k < 8
    ensures BitSet(Shift(bits, b), k) <==> if k == 0 then b else BitSet(bits, k - 1)
  {
  }

  lemma ShiftTracks(bits: bv8, votes: seq<Vote>, p: Vote -> bool, v: Vote)
    requires BitsTrack(bits, votes, p)
    ensures BitsTrack(Shift(bits, p(v)), votes + [v], p)
  {
    hide BitSet, Shift;
    var votes' := votes + [v];
    forall k | 0 <= k < 8 ensures BitSet(Shift(bits, p(v)), k) <==> LastIs(votes', k, p) {
      ShiftBits(bits, p(v), k);
      if k > 0 { assert LastIs(votes', k, p) <==> LastIs(votes, k - 1, p); }
    }
  }

  lemma AndBits(a: bv8, b: bv8, k: nat)
    requires k < 8
    ensures BitSet(a & b, k) <==> BitSet(a, k) && BitSet(b, k)
    ensures BitSet(!a & b, k) <==> !BitSet(a, k) && BitSet(b, k)
  {
  }

  lemma OnesTally(bits: bv8, votes: seq<Vote>, p: Vote -> bool)
    requires BitsTrack(bits, votes, p)
    ensures Ones(bits) == Tally(votes, p)
  {
    hide BitSet;
  }

  /** The bitwise verdict is the verdict of the last eight votes: conclusive only if at least seven
      of them agree. */
  lemma RoundIsOutcome(votes: bv8, consider: bv8, history: seq<Vote>)
    requires BitsTrack(votes, history, Yes) && BitsTrack(consider, history, Considered)
    ensures RoundOf(votes, consider) == Outcome(history)
  {
    hide BitsTrack, CountBits, Tally;
    YesBits(votes, consider, history);
    EnoughAgree(votes & consider, history, Yes);
    EnoughAgree(!votes & consider, history, No);
  }

  lemma EnoughAgree(v: bv8, history: seq<Vote>, want: Vote -> bool)
    requires BitsTrack(v, history, want)
    ensures CountBits(v as bv32 & 0xFF) > 6 <==> Tally(history, want) >= 7
  {
    hide BitsTrack, CountBits, Ones, Tally;
    OnesTally(v, history, want);
    MoreThanSix(v);
  }

  lemma YesBits(votes: bv8, consider: bv8, history: seq<Vote>)
    requires BitsTrack(votes, history, Yes) && BitsTrack(consider, history, Considered)
    ensures BitsTrack(votes & consider, history, Yes) && BitsTrack(!votes & consider, history, No)
  {
    hide BitSet;
    forall k | 0 <= k < 8
      ensures BitSet(votes & consider, k) <==> LastIs(history, k, Yes)
      ensures BitSet(!votes & consider, k) <==> LastIs(history, k, No)
    {
      AndBits(votes, consider, k);
    }
  }

  // ---------------------------------------------------------------- confidence

  /** The state after so many conclusive rounds. */
  predicate StateAfter(initial: bool, rounds: seq<bool>) {
    if rounds == [] then initial else rounds[|rounds| - 1]
  }

  /** How many rounds in a row, up to the last, confirmed the state they found. */
  function Agreed(initial: bool, rounds: seq<bool>): (n: nat)
    ensures n <= |rounds|
  {
    if rounds == [] then 0
    else
      var before := rounds[..|rounds| - 1];
      if StateAfter(initial, before) == rounds[|rounds| - 1] then Agreed(initial, before) + 1 else 0
  }

  lemma AgreedNext(initial: bool, rounds: seq<bool>, round: bool)
    ensures Agreed(initial, rounds + [round]) ==
      if StateAfter(initial, rounds) == round then Agreed(initial, rounds) + 1 else 0
  {
    assert (rounds + [round])[..|rounds|] == rounds;
  }

  /** At least `n` exactly if the last `n` rounds and what they found are all the same. */
  lemma {:induction false} AgreedIff(initial: bool, rounds: seq<bool>, n: nat)
    ensures Agreed(initial, rounds) >= n <==>
      n <= |rounds| && forall i :: |rounds| - n <= i <= |rounds| ==>
        StateAfter(initial, rounds[..i]) == StateAfter(initial, rounds)
    decreases |rounds|
  {
    assert rounds[..|rounds|] == rounds;
    if n > 0 && rounds != [] {
      var m := |rounds| - 1;
      var before := rounds[..m];
      AgreedIff(initial, before, n - 1);
      assert forall i :: 0 <= i <= m ==> before[..i] == rounds[..i];
    }
  }

  /** The confidence counts, on fifteen bits, the rounds in a row that confirmed the current state. */
  predicate ConfidenceTracks(confidence: nat, initial: bool, votes: nat, rounds: seq<bool>) {
    var score, accepted := confidence / 2, confidence % 2 == 1;
    && confidence < TWO_16 && score == Agreed(initial, rounds) % 0x8000 && accepted == StateAfter(initial, rounds)
    && score <= |rounds|
    && (forall i :: |rounds| - score <= i < |rounds| ==> rounds[i] == accepted)
    && (if rounds == [] then accepted == initial else rounds[|rounds| - 1] == accepted)
    && (rounds != [] ==> |rounds| + 6 <= votes)
  }

  function AddRound(rounds: seq<bool>, round: Round): seq<bool> {
    if round == Inconclusive then rounds else rounds + [round == Pass]
  }

  lemma SevenVotes(votes: seq<Vote>)
    requires Outcome(votes) != Inconclusive
    ensures |votes| >= 7
  {
  }

  lemma RaisedBy(confidence: nat, streak: nat)
    requires confidence < TWO_16 && confidence / 2 == streak % 0x8000
    ensures var raised := (confidence + 2) % TWO_16;
      raised % 2 == confidence % 2 && raised / 2 == (streak + 1) % 0x8000 && raised / 2 <= confidence / 2 + 1
  {
  }

  lemma RaiseTracks(confidence: nat, initial: bool, votes: nat, rounds: seq<bool>, yes: bool)
    requires ConfidenceTracks(confidence, initial, votes, rounds) && votes >= 6 && (confidence % 2 == 1) == yes
    ensures ConfidenceTracks((confidence + 2) % TWO_16, initial, votes + 1, rounds + [yes])
  {
    AgreedNext(initial, rounds, yes);
    RaisedBy(confidence, Agreed(initial, rounds));
    hide Agreed;
    var n, now := |rounds|, rounds + [yes];
    assert forall i :: 0 <= i < n ==> now[i] == rounds[i];
  }

  lemma FlipTracks(confidence: nat, initial: bool, votes: nat, rounds: seq<bool>, yes: bool)
    requires ConfidenceTracks(confidence, initial, votes, rounds) && votes >= 6 && (confidence % 2 == 1) != yes
    ensures ConfidenceTracks(One(yes), initial, votes + 1, rounds + [yes])
  {
    AgreedNext(initial, rounds, yes);
    hide Agreed;
  }

  lemma JudgeTracks(confidence: nat, initial: bool, votes: nat, rounds: seq<bool>, round: Round)
    requires ConfidenceTracks(confidence, initial, votes, rounds) && (round != Inconclusive ==> votes >= 6)
    ensures ConfidenceTracks(Judge(confidence, round).0, initial, votes + 1, AddRound(rounds, round))
    ensures Judge(confidence, round).1 <==>
      (|| (Judge(confidence, round).0 % 2 != confidence % 2)
       || (round != Inconclusive && Judge(confidence, round).0 / 2 == FINALIZATION_SCORE))
  {
    var yes := round == Pass;
    if round != Inconclusive {
      if (confidence % 2 == 1) == yes {
        RaiseTracks(confidence, initial, votes, rounds, yes);
        RaisedBy(confidence, Agreed(initial, rounds));
      } else {
        FlipTracks(confidence, initial, votes, rounds, yes);
      }
    } else {
      StillTracks(confidence, initial, votes, rounds);
    }
    hide ConfidenceTracks;
  }

  lemma StillTracks(confidence: nat, initial: bool, votes: nat, rounds: seq<bool>)
    requires ConfidenceTracks(confidence, initial, votes, rounds)
    ensures ConfidenceTracks(confidence, initial, votes + 1, rounds)
  {
    hide Agreed;
  }

  predicate Tracks(r: Record, log: Log) {
    && RingTracks(r.filter, r.successfulVotes, log.hashes)
    && BitsTrack(r.votes, log.votes, Yes) && BitsTrack(r.consider, log.votes, Considered)
    && ConfidenceTracks(r.confidence, log.initial, |log.votes|, log.rounds)
  }

  /** Registering a vote does to the record what it does to its history, and reports a change
      exactly when the state flips or the finalisation score is reached. */
  lemma RegisterTracks(r: Record, log: Log, v: Vote)
    requires Tracks(r, log)
    ensures Tracks(RegisterVote(r, v).0, LogVote(log, v))
    ensures var (r', changed) := RegisterVote(r, v);
      changed <==>
      (|| IsAccepted(r') != IsAccepted(r)
       || (|LogVote(log, v).rounds| > |log.rounds| && GetConfidence(r') == FINALIZATION_SCORE))
  {
    hide RingTracks, BitsTrack, ConfidenceTracks, Outcome, RoundOf, InRing, Repeats, NodeHash, Shift, LastIs, Judge;
    assert |r.filter| == QUORUM by { RingSize(r, log); }
    if v.node != NO_NODE {
      RingSearch(r.filter, r.successfulVotes, log.hashes, v.node);
      RingAdds(r.filter, r.successfulVotes, log.hashes, NodeHash(v.node));
    } else {
      NoNodeNew(log.hashes);
    }
    var votes := log.votes + [v];
    ShiftTracks(r.votes, log.votes, Yes, v);
    ShiftTracks(r.consider, log.votes, Considered, v);
    RoundIsOutcome(Shift(r.votes, Yes(v)), Shift(r.consider, Considered(v)), votes);
    if Outcome(votes) != Inconclusive { SevenVotes(votes); }
    JudgeTracks(r.confidence, log.initial, |log.votes|, log.rounds, Outcome(votes));
    JudgeInconclusive(r.confidence);
  }

  lemma JudgeInconclusive(confidence: nat)
    ensures Judge(confidence, Inconclusive) == (confidence, false)
  {
  }

  lemma RingSize(r: Record, log: Log)
    requires RingTracks(r.filter, r.successfulVotes, log.hashes)
    ensures |r.filter| == QUORUM
  {
  }

  lemma NoNodeNew(hashes: seq<nat>)
    ensures !Repeats(hashes, NO_NODE)
  {
  }

  // ---------------------------------------------------------------- runs

  function Replay(r: Record, attempts: seq<Vote>): Record
    requires |r.filter| == QUORUM
    decreases |attempts|
  {
    if attempts == [] then r
    else
      RingStays(r, attempts[0]);
      Replay(RegisterVote(r, attempts[0]).0, attempts[1..])
  }

  lemma RingStays(r: Record, v: Vote)
    requires |r.filter| == QUORUM
    ensures |RegisterVote(r, v).0.filter| == QUORUM
  {
    hide NodeHash, RoundOf, Judge, InRing;
  }

  function LogVotes(log: Log, attempts: seq<Vote>): Log
    decreases |attempts|
  {
    if attempts == [] then log else LogVotes(LogVote(log, attempts[0]), attempts[1..])
  }

  function NewLog(accepted: bool): Log { Log(accepted, [], [], []) }

  lemma NewTracks(accepted: bool)
    ensures Tracks(NewRecord(accepted), NewLog(accepted))
  {
    forall k | 0 <= k < 8 ensures !BitSet(0, k) { ZeroBits(k); }
  }

  lemma ZeroBits(k: nat)
    requires k < 8
    ensures !BitSet(0, k)
  {
  }

  lemma {:induction false} ReplayTracks(r: Record, log: Log, attempts: seq<Vote>)
    requires Tracks(r, log)
    ensures |r.filter| == QUORUM && Tracks(Replay(r, attempts), LogVotes(log, attempts))
    decreases |attempts|
  {
    hide Tracks, RegisterVote, LogVote;
    assert |r.filter| == QUORUM by { TracksRing(r, log); }
    if attempts != [] {
      RegisterTracks(r, log, attempts[0]);
      ReplayTracks(RegisterVote(r, attempts[0]).0, LogVote(log, attempts[0]), attempts[1..]);
    }
  }

  lemma TracksRing(r: Record, log: Log)
    requires Tracks(r, log)
    ensures |r.filter| == QUORUM
  {
    RingSize(r, log);
  }

  /** Any eight hashes counted in a row are different. */
  predicate SpreadOut(hashes: seq<nat>) {
    forall i, j :: 0 <= i < j < |hashes| && j - i < QUORUM ==> hashes[i] != hashes[j]
  }

  /** The hashes are those of the counted votes, as long as every vote names a node. */
  predicate Named(log: Log) {
    (forall i :: 0 <= i < |log.votes| ==> log.votes[i].node != NO_NODE) ==>
      |log.hashes| == |log.votes| && forall i :: 0 <= i < |log.votes| ==> log.hashes[i] == NodeHash(log.votes[i].node)
  }

  lemma LogVoteSpreads(log: Log, v: Vote)
    requires SpreadOut(log.hashes) && Named(log)
    ensures SpreadOut(LogVote(log, v).hashes) && Named(LogVote(log, v))
  {
    hide NodeHash, Outcome;
    var log' := LogVote(log, v);
    if !Repeats(log.hashes, v.node) {
      assert log'.votes[|log.votes|] == v;
      if v.node != NO_NODE {
        var h := NodeHash(v.node);
        forall i | 0 <= i < |log.hashes| && |log.hashes| - i < QUORUM ensures log.hashes[i] != h {
          assert Recent(log.hashes, |log.hashes| - i) == log.hashes[i];
        }
      }
      forall i | 0 <= i < |log.votes| ensures log'.votes[i] == log.votes[i] { }
    }
  }

  lemma {:induction false} LogVotesSpread(log: Log, attempts: seq<Vote>)
    requires SpreadOut(log.hashes) && Named(log)
    ensures SpreadOut(LogVotes(log, attempts).hashes) && Named(LogVotes(log, attempts))
    decreases |attempts|
  {
    hide SpreadOut, Named, LogVote;
    if attempts != [] {
      LogVoteSpreads(log, attempts[0]);
      LogVotesSpread(LogVote(log, attempts[0]), attempts[1..]);
    }
  }

  /** Any eight votes counted in a row come from eight different nodes. */
  lemma QuorumIsDistinct(accepted: bool, attempts: seq<Vote>, i: nat, j: nat)
    requires forall k :: 0 <= k < |LogVotes(NewLog(accepted), attempts).votes| ==>
      LogVotes(NewLog(accepted), attempts).votes[k].node != NO_NODE
    requires i < j < |LogVotes(NewLog(accepted), attempts).votes| && j - i < QUORUM
    ensures LogVotes(NewLog(accepted), attempts).votes[i].node != LogVotes(NewLog(accepted), attempts).votes[j].node
  {
    hide NodeHash;
    LogVotesSpread(NewLog(accepted), attempts);
    var log := LogVotes(NewLog(accepted), attempts);
    assert log.hashes[i] == NodeHash(log.votes[i].node) && log.hashes[j] == NodeHash(log.votes[j].node);
  }

  /** 134 votes counted, and the last 128 conclusive rounds all for the same state. */
  predicate Earned(log: Log, accepted: bool) {
    && |log.votes| >= 134 && |log.rounds| >= FINALIZATION_SCORE
    && forall i :: |log.rounds| - FINALIZATION_SCORE <= i < |log.rounds| ==> log.rounds[i] == accepted
  }

  lemma FinalIffAgreed(r: Record, log: Log)
    requires Tracks(r, log)
    ensures HasFinalized(r) <==> Agreed(log.initial, log.rounds) % 0x8000 >= 128
    ensures IsAccepted(r) <==> StateAfter(log.initial, log.rounds)
  {
    hide RingTracks, BitsTrack, Agreed;
  }

  lemma FinalIsEarned(r: Record, log: Log)
    requires Tracks(r, log) && HasFinalized(r)
    ensures Earned(log, IsAccepted(r))
  {
    hide RingTracks, BitsTrack;
  }

  /** No record is final before 134 votes were counted, nor unless the last 128 conclusive rounds
      all agree with its state. */
  lemma FinalityIsEarned(accepted: bool, attempts: seq<Vote>)
    ensures |NewRecord(accepted).filter| == QUORUM
    ensures var r, log := Replay(NewRecord(accepted), attempts), LogVotes(NewLog(accepted), attempts);
      HasFinalized(r) ==> Earned(log, IsAccepted(r))
  {
    hide Tracks, Earned, LogVotes, Replay;
    NewTracks(accepted);
    ReplayTracks(NewRecord(accepted), NewLog(accepted), attempts);
    var r, log := Replay(NewRecord(accepted), attempts), LogVotes(NewLog(accepted), attempts);
    if HasFinalized(r) { FinalIsEarned(r, log); }
  }

  /** A record is final exactly while the last 128 conclusive rounds or more confirmed the state they found,
      counted on fifteen bits; its state is that of the last conclusive round. */
  lemma FinalityIff(accepted: bool, attempts: seq<Vote>)
    ensures |NewRecord(accepted).filter| == QUORUM
    ensures var r, log := Replay(NewRecord(accepted), attempts), LogVotes(NewLog(accepted), attempts);
      && (HasFinalized(r) <==> Agreed(accepted, log.rounds) % 0x8000 >= 128)
      && (IsAccepted(r) <==> StateAfter(accepted, log.rounds))
  {
    hide Tracks, LogVotes, Replay;
    NewTracks(accepted);
    ReplayTracks(NewRecord(accepted), NewLog(accepted), attempts);
    InitialKept(NewLog(accepted), attempts);
    FinalIffAgreed(Replay(NewRecord(accepted), attempts), LogVotes(NewLog(accepted), attempts));
  }

  lemma {:induction false} InitialKept(log: Log, attempts: seq<Vote>)
    ensures LogVotes(log, attempts).initial == log.initial
    decreases |attempts|
  {
    hide Repeats, Outcome;
    if attempts != [] { InitialKept(LogVote(log, attempts[0]), attempts[1..]); }
  }

  // ---------------------------------------------------------------- votes and rounds, spelled out

  /** The error says yes if it is zero, no up to 2^31, and nothing beyond. */
  lemma VoteMeaning(v: Vote)
    ensures Yes(v) <==> v.error == 0
    ensures No(v) <==> 1 <= v.error <= 0x7fff_ffff
    ensures !Considered(v) <==> v.error >= 0x8000_0000
  {
  }

  /** All of the last eight votes but possibly one. */
  predicate AllBut(votes: seq<Vote>, p: Vote -> bool, missing: nat) {
    forall k :: 0 <= k < 8 && k != missing ==> LastIs(votes, k, p)
  }

  lemma AllButTally(votes: seq<Vote>, p: Vote -> bool)
    ensures Tally(votes, p) >= 7 <==> exists missing: nat :: missing < 8 && AllBut(votes, p, missing)
  {
    if Tally(votes, p) >= 7 {
      var missing: nat :=
        if !LastIs(votes, 0, p) then 0 else if !LastIs(votes, 1, p) then 1
        else if !LastIs(votes, 2, p) then 2 else if !LastIs(votes, 3, p) then 3
        else if !LastIs(votes, 4, p) then 4 else if !LastIs(votes, 5, p) then 5
        else if !LastIs(votes, 6, p) then 6 else 7;
      assert AllBut(votes, p, missing);
    }
    if missing: nat :| missing < 8 && AllBut(votes, p, missing) {
      assert Tally(votes, p) >= 7;
    }
  }

  /** A round passes if all of the last eight votes but at most one are yes, and fails if all but at most one
      are no. */
  lemma OutcomeIff(votes: seq<Vote>)
    ensures Outcome(votes) == Pass <==> exists missing: nat :: missing < 8 && AllBut(votes, Yes, missing)
    ensures Outcome(votes) == Fail <==> exists missing: nat :: missing < 8 && AllBut(votes, No, missing)
  {
    AllButTally(votes, Yes);
    AllButTally(votes, No);
    NotBoth(votes);
    hide Tally, AllBut;
  }

  lemma NotBoth(votes: seq<Vote>)
    ensures Tally(votes, Yes) < 7 || Tally(votes, No) < 7
  {
    assert forall k: nat :: LastIs(votes, k, Yes) ==> !LastIs(votes, k, No);
  }

  /** Every vote, counted or not, answers a request in flight; with none in flight the counter wraps. */
  lemma VoteAnswersRequest(r: Record, v: Vote)
    requires |r.filter| == QUORUM && r.inflight < 256
    ensures RegisterVote(r, v).0.inflight == if r.inflight == 0 then 255 else r.inflight - 1
  {
    hide NodeHash, InRing, RoundOf, Judge, Shift;
  }

  lemma KnownHashes()
    ensures NodeHash(0) == 0x1405 && NodeHash(1) == 0x0a8e
  {
  }
}
