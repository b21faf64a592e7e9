/** The requests in flight for a block under vote: a counter of eight bits, raised when the block is
    polled and lowered when a vote comes in or requests expire. */
module PollSlots {
  import opened VoteRecord

  const WRAP: nat := 256

  /** A poll that is granted if there is a place, or the end of `count` requests. */
  datatype Event = Poll | Clear(count: nat)

  predicate Byte(e: Event) { e.Clear? ==> e.count < WRAP }

  function After(inflight: nat, e: Event): nat
    requires Byte(e)
  {
    match e
    case Poll => if inflight < MAX_INFLIGHT_POLL then inflight + 1 else inflight
    case Clear(count) => (inflight + WRAP - count) % WRAP
  }

  predicate Bytes(events: seq<Event>) { forall i :: 0 <= i < |events| ==> Byte(events[i]) }

  function AfterAll(inflight: nat, events: seq<Event>): nat
    requires Bytes(events)
  {
    if events == [] then inflight else After(AfterAll(inflight, events[..|events| - 1]), events[|events| - 1])
  }

  /** Polls granted less requests ended, as unbounded numbers. */
  function Balance(inflight: nat, events: seq<Event>): int
    requires Bytes(events)
  {
    if events == [] then inflight
    else
      var n := |events| - 1;
      var before := Balance(inflight, events[..n]);
      match events[n]
      case Poll => if AfterAll(inflight, events[..n]) < MAX_INFLIGHT_POLL then before + 1 else before
      case Clear(count) => before - count
  }

  /** Nothing ends that is not in flight: no prefix of the run ends more requests than were polled. */
  predicate Solvent(inflight: nat, events: seq<Event>)
    requires Bytes(events)
  {
    forall k :: 0 <= k <= |events| ==> Balance(inflight, events[..k]) >= 0
  }

  /** At no point are there more in flight than allowed. */
  predicate Bounded(inflight: nat, events: seq<Event>)
    requires Bytes(events)
  {
    forall k :: 0 <= k <= |events| ==> AfterAll(inflight, events[..k]) <= MAX_INFLIGHT_POLL
  }

  /** Fewer end at once than would bring a wrapped counter back into range. */
  predicate Few(events: seq<Event>) {
    forall i :: 0 <= i < |events| && events[i].Clear? ==> events[i].count < WRAP - MAX_INFLIGHT_POLL
  }

  lemma Prefixes(events: seq<Event>, n: nat)
    requires n + 1 == |events|
    ensures forall k :: 0 <= k <= n ==> events[..n][..k] == events[..k]
    ensures events[..n + 1] == events
  {
  }

  /** While nothing ends that is not in flight, the counter is the number of requests in flight. */
  lemma {:induction false} SolventCounts(inflight: nat, events: seq<Event>)
    requires Bytes(events) && inflight <= MAX_INFLIGHT_POLL && Solvent(inflight, events)
    ensures AfterAll(inflight, events) == Balance(inflight, events) <= MAX_INFLIGHT_POLL
    decreases |events|
  {
    if events != [] {
      var n := |events| - 1;
      Prefixes(events, n);
      assert Solvent(inflight, events[..n]);
      SolventCounts(inflight, events[..n]);
      assert Balance(inflight, events[..n + 1]) >= 0;
    }
  }

  lemma {:induction false} BoundedIsSolvent(inflight: nat, events: seq<Event>)
    requires Bytes(events) && Few(events) && Bounded(inflight, events)
    ensures Solvent(inflight, events) && Balance(inflight, events) == AfterAll(inflight, events)
    decreases |events|
  {
    if events != [] {
      var n := |events| - 1;
      hide Balance, AfterAll;
      Prefixes(events, n);
      BoundedBefore(inflight, events, n);
      BoundedIsSolvent(inflight, events[..n]);
      assert AfterAll(inflight, events[..n]) <= MAX_INFLIGHT_POLL;
      assert AfterAll(inflight, events[..n + 1]) <= MAX_INFLIGHT_POLL;
      OneMore(inflight, events);
      assert Solvent(inflight, events) by {
        forall k | 0 <= k <= |events| ensures Balance(inflight, events[..k]) >= 0 {
          if k <= n { assert Balance(inflight, events[..n][..k]) >= 0; }
        }
      }
    } else {
      assert events[..0] == [];
    }
  }

  lemma BoundedBefore(inflight: nat, events: seq<Event>, n: nat)
    requires Bytes(events) && Bounded(inflight, events) && n <= |events|
    ensures Bounded(inflight, events[..n])
  {
    hide AfterAll;
    forall k | 0 <= k <= n ensures AfterAll(inflight, events[..n][..k]) <= MAX_INFLIGHT_POLL {
      assert events[..n][..k] == events[..k];
    }
  }

  /** A step between two counts in range neither wraps nor ends what is not in flight. */
  lemma OneMore(inflight: nat, events: seq<Event>)
    requires Bytes(events) && Few(events) && events != []
    requires var before := AfterAll(inflight, events[..|events| - 1]);
      before == Balance(inflight, events[..|events| - 1]) && before <= MAX_INFLIGHT_POLL
    requires AfterAll(inflight, events) <= MAX_INFLIGHT_POLL
    ensures Balance(inflight, events) == AfterAll(inflight, events)
  {
  }

  /** Over every run from a new record: never more in flight than allowed if and only if no more requests
      end than were polled, at any point. */
  lemma BoundedIff(events: seq<Event>)
    requires Bytes(events) && Few(events)
    ensures Bounded(0, events) <==> Solvent(0, events)
  {
    if Bounded(0, events) { BoundedIsSolvent(0, events); }
    if Solvent(0, events) {
      forall k | 0 <= k <= |events| ensures AfterAll(0, events[..k]) <= MAX_INFLIGHT_POLL {
        forall j | 0 <= j <= k ensures Balance(0, events[..k][..j]) >= 0 {
          assert events[..k][..j] == events[..j];
        }
        SolventCounts(0, events[..k]);
      }
    }
  }

  /** All requests that end in a run. */
  function Cleared(events: seq<Event>): nat {
    if events == [] then 0
    else
      Cleared(events[..|events| - 1]) + match events[|events| - 1]
        case Poll => 0
        case Clear(count) => count
  }

  /** Beyond the limit nothing is polled until enough requests have ended. */
  lemma {:induction false} StuckBeyond(inflight: nat, events: seq<Event>)
    requires Bytes(events) && inflight < WRAP && Cleared(events) + MAX_INFLIGHT_POLL <= inflight
    ensures AfterAll(inflight, events) == inflight - Cleared(events)
    ensures Balance(inflight, events) == inflight - Cleared(events)
    decreases |events|
  {
    if events != [] { StuckBeyond(inflight, events[..|events| - 1]); }
  }

  /** A vote ends one request. */
  lemma VoteClears(r: Record, v: Vote)
    requires r.inflight < WRAP && |r.filter| == QUORUM
    ensures RegisterVote(r, v).0.inflight == After(r.inflight, Clear(1))
  {
  }

  /** It happens: a vote that was asked for of an earlier record of the block, counted by a new one, leaves
      255 in flight; no poll is granted before 245 more requests have ended. */
  lemma LateVoteBlocksPolls(accepted: bool, v: Vote, events: seq<Event>)
    requires Bytes(events) && Cleared(events) + MAX_INFLIGHT_POLL <= 255
    ensures |NewRecord(accepted).filter| == QUORUM
    ensures RegisterVote(NewRecord(accepted), v).0.inflight == 255
    ensures Balance(255, events) == 255 - Cleared(events)
    ensures AfterAll(255, events) >= MAX_INFLIGHT_POLL
  {
    VoteClears(NewRecord(accepted), v);
    StuckBeyond(255, events);
  }
}
