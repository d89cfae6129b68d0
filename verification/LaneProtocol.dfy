/**
 * Concurrent requests on shared lanes: each snapshots a lane, decides on its
 * copy, and commits or fails later, in any interleaving, while idle lanes are
 * evicted.
 */
module LaneProtocol {
  import opened Wrappers
  import opened WritePolicy

  const LANE_IDLE_EVICT_SECS: nat := 24 * 60 * 60
  const LANE_SWEEP_MIN_LEN: nat := 64

  type Key = (string, string)
  type Rid = nat

  datatype Pending = Pending(key: Key, lane: Lane)

  /** The store all requests share, and the requests in flight. */
  datatype System = System(lanes: map<Key, Lane>, flying: map<Rid, Pending>)

  /** What a request brings: the time, the prompt, and whether the harness pinned an hour. */
  datatype Event = Event(now: u64, prompt: u64, pinned: bool)

  datatype Step =
    | Begin(rid: Rid, key: Key, event: Event)
    | Commit(rid: Rid)
    | Fail(rid: Rid)
    | Evict(now: u64)

  // ----- one request --------------------------------------------------------

  function Snapshot(lanes: map<Key, Lane>, key: Key): Lane {
    if key in lanes then lanes[key] else DEFAULT_LANE
  }

  /** The lane a request would commit; a pinned hour keeps the prefix alive for an hour whatever the tier. */
  function Candidate(l: Lane, e: Event, params: Params): Lane
    requires Sound(l)
  {
    var next := Decided(l, e.now, e.prompt, params).0;
    if e.pinned then next.(ttl := ONE_HOUR_S) else next
  }

  predicate CurrentIsNewer(current: Lane, candidate: Lane) {
    match (current.lastTs, candidate.lastTs)
    case (Some(a), Some(b)) => a > b
    case (Some(_), None) => true
    case _ => false
  }

  /** The commit writes unless the store moved past the candidate meanwhile. */
  function Committed(lanes: map<Key, Lane>, p: Pending): map<Key, Lane> {
    var lane := Snapshot(lanes, p.key);
    lanes[p.key := if CurrentIsNewer(lane, p.lane) then lane else p.lane]
  }

  function Swept(lanes: map<Key, Lane>, now: u64): map<Key, Lane> {
    if |lanes| > LANE_SWEEP_MIN_LEN then
      map k | k in lanes && (lanes[k].lastTs.None? || now - lanes[k].lastTs.value <= LANE_IDLE_EVICT_SECS) :: lanes[k]
    else lanes
  }

  class LaneStore {
    var lanes: map<Key, Lane>

    constructor ()
      ensures lanes == map[]
    {
      lanes := map[];
    }

    /** Decides on a copy of the lane; the store is only swept. */
    method SnapshotAndDecide(key: Key, e: Event, params: Params) returns (commit: Pending, decision: Decision)
      requires Sound(Snapshot(lanes, key))
      modifies this
      ensures commit == Pending(key, Candidate(Snapshot(old(lanes), key), e, params))
      ensures decision == Decided(Snapshot(old(lanes), key), e.now, e.prompt, params).1
      ensures lanes == Swept(old(lanes), e.now)
    {
      var lane := new LaneState(Snapshot(lanes, key));
      decision := lane.Decide(e.now, e.prompt, params);
      if |lanes| > LANE_SWEEP_MIN_LEN {
        lanes := map k | k in lanes
          && (lanes[k].lastTs.None? || SaturatingSub(e.now, lanes[k].lastTs.value) <= LANE_IDLE_EVICT_SECS) :: lanes[k];
      }
      if e.pinned {
        lane.ttl := ONE_HOUR_S;
      }
      commit := Pending(key, lane.Value());
    }

    method CommitPolicyLane(commit: Pending)
      modifies this
      ensures lanes == Committed(old(lanes), commit)
    {
      var lane := if commit.key in lanes then lanes[commit.key] else DEFAULT_LANE;
      var currentIsNewer :=
        match (lane.lastTs, commit.lane.lastTs)
        case (Some(current), Some(candidate)) => current > candidate
        case (Some(_), None) => true
        case _ => false;
      if !currentIsNewer {
        lane := commit.lane;
      }
      lanes := lanes[commit.key := lane];
    }
  }

  /** `saturating_sub`. */
  function SaturatingSub(now: u64, then_: u64): nat {
    Max(now - then_, 0)
  }

  // ----- interleavings ------------------------------------------------------

  predicate AllResting(sys: System) {
    && (forall k :: k in sys.lanes ==> Resting(sys.lanes[k]))
    && (forall r :: r in sys.flying ==> Resting(sys.flying[r].lane))
  }

  function Next(sys: System, step: Step, params: Params): System
    requires AllResting(sys)
  {
    match step
    case Begin(rid, key, e) =>
      if rid in sys.flying then sys
      else sys.(flying := sys.flying[rid := Pending(key, Candidate(Snapshot(sys.lanes, key), e, params))])
    case Commit(rid) =>
      if rid !in sys.flying then sys
      else System(Committed(sys.lanes, sys.flying[rid]), sys.flying - {rid})
    case Fail(rid) => sys.(flying := sys.flying - {rid})
    case Evict(now) => sys.(lanes := Swept(sys.lanes, now))
  }

  lemma CandidateRests(l: Lane, e: Event, params: Params)
    requires Resting(l)
    ensures Settled(Candidate(l, e, params)) && Candidate(l, e, params).lastTs == Some(e.now)
  {
    DecidedFacts(l, e.now, e.prompt, params);
  }

  lemma NextRests(sys: System, step: Step, params: Params)
    requires AllResting(sys)
    ensures AllResting(Next(sys, step, params))
  {
    if step.Begin? {
      CandidateRests(Snapshot(sys.lanes, step.key), step.event, params);
    }
  }

  /** The system after any sequence of steps. */
  function Exec(steps: seq<Step>, params: Params): (sys: System)
    ensures AllResting(sys)
  {
    if steps == [] then System(map[], map[])
    else
      var before := Exec(steps[..|steps| - 1], params);
      NextRests(before, steps[|steps| - 1], params);
      Next(before, steps[|steps| - 1], params)
  }

  // ----- the sequential machine ---------------------------------------------

  /** One lane, one request after the other. */
  function Sequential(events: seq<Event>, params: Params): (l: Lane)
    ensures Resting(l)
    ensures events != [] ==> l.lastTs == Some(events[|events| - 1].now)
  {
    if events == [] then DEFAULT_LANE
    else
      var before := Sequential(events[..|events| - 1], params);
      CandidateRests(before, events[|events| - 1], params);
      Candidate(before, events[|events| - 1], params)
  }

  /** The requests that snapshotted `key`, in the order they did. */
  function Begun(steps: seq<Step>, key: Key): seq<Event> {
    if steps == [] then []
    else
      var last := steps[|steps| - 1];
      Begun(steps[..|steps| - 1], key) + if last.Begin? && last.key == key then [last.event] else []
  }

  predicate Subsequence(a: seq<Event>, b: seq<Event>) {
    a == [] ||
    (b != [] &&
      (|| (a[|a| - 1] == b[|b| - 1] && Subsequence(a[..|a| - 1], b[..|b| - 1]))
       || Subsequence(a, b[..|b| - 1])))
  }

  /** The lane is what some of the key's requests, taken one after the other, would have left. */
  ghost predicate Explained(l: Lane, begun: seq<Event>, params: Params) {
    exists events :: Subsequence(events, begun) && Sequential(events, params) == l
  }

  lemma SubsequenceGrows(a: seq<Event>, b: seq<Event>, e: Event)
    requires Subsequence(a, b)
    ensures Subsequence(a, b + [e]) && Subsequence(a + [e], b + [e])
  {
    assert (b + [e])[..|b|] == b && (a + [e])[..|a|] == a;
  }

  lemma ExplainedLater(l: Lane, begun: seq<Event>, e: Event, params: Params)
    requires Explained(l, begun, params)
    ensures Explained(l, begun + [e], params)
  {
    var events :| Subsequence(events, begun) && Sequential(events, params) == l;
    SubsequenceGrows(events, begun, e);
  }

  lemma ExplainedCandidate(l: Lane, begun: seq<Event>, e: Event, params: Params)
    requires Explained(l, begun, params) && Resting(l)
    ensures Explained(Candidate(l, e, params), begun + [e], params)
  {
    var events :| Subsequence(events, begun) && Sequential(events, params) == l;
    SubsequenceGrows(events, begun, e);
    assert (events + [e])[..|events|] == events;
    assert Sequential(events + [e], params) == Candidate(l, e, params);
  }

  lemma DefaultExplained(begun: seq<Event>, params: Params)
    ensures Explained(DEFAULT_LANE, begun, params)
  {
    assert Subsequence([], begun) && Sequential([], params) == DEFAULT_LANE;
  }

  ghost predicate AllExplained(sys: System, steps: seq<Step>, params: Params) {
    && (forall k :: k in sys.lanes ==> Explained(sys.lanes[k], Begun(steps, k), params))
    && (forall r :: r in sys.flying ==> Explained(sys.flying[r].lane, Begun(steps, sys.flying[r].key), params))
  }

  lemma BegunStep(front: seq<Step>, last: Step, key: Key)
    ensures Begun(front + [last], key)
         == if last.Begin? && last.key == key then Begun(front, key) + [last.event] else Begun(front, key)
  {
    assert (front + [last])[..|front|] == front;
  }

  /** A request taken in the meantime does not spoil an explanation. */
  lemma ExplainedStep(l: Lane, front: seq<Step>, last: Step, key: Key, params: Params)
    requires Explained(l, Begun(front, key), params)
    ensures Explained(l, Begun(front + [last], key), params)
  {
    BegunStep(front, last, key);
    if last.Begin? && last.key == key {
      ExplainedLater(l, Begun(front, key), last.event, params);
    }
  }

  lemma SnapshotExplained(sys: System, front: seq<Step>, key: Key, params: Params)
    requires AllExplained(sys, front, params)
    ensures Explained(Snapshot(sys.lanes, key), Begun(front, key), params)
  {
    DefaultExplained(Begun(front, key), params);
  }

  lemma NextExplained(sys: System, front: seq<Step>, step: Step, params: Params)
    requires AllResting(sys) && AllExplained(sys, front, params)
    ensures AllExplained(Next(sys, step, params), front + [step], params)
  {
    var next := Next(sys, step, params);
    forall k | k in next.lanes ensures Explained(next.lanes[k], Begun(front + [step], k), params) {
      if k in sys.lanes && next.lanes[k] == sys.lanes[k] {
        ExplainedStep(sys.lanes[k], front, step, k, params);
      } else {
        ExplainedStep(sys.flying[step.rid].lane, front, step, k, params);
      }
    }
    forall r | r in next.flying
      ensures Explained(next.flying[r].lane, Begun(front + [step], next.flying[r].key), params)
    {
      if r in sys.flying && next.flying[r] == sys.flying[r] {
        ExplainedStep(sys.flying[r].lane, front, step, sys.flying[r].key, params);
      } else {
        SnapshotExplained(sys, front, step.key, params);
        BegunStep(front, step, step.key);
        ExplainedCandidate(Snapshot(sys.lanes, step.key), Begun(front, step.key), step.event, params);
      }
    }
  }

  /**
   * In every interleaving, every stored lane is what the sequential machine
   * leaves after some of that lane's requests, taken in the order in which they
   * looked at the store.
   */
  lemma {:induction false} EveryLaneExplained(steps: seq<Step>, params: Params)
    ensures AllExplained(Exec(steps, params), steps, params)
  {
    if steps != [] {
      var front := steps[..|steps| - 1];
      EveryLaneExplained(front, params);
      assert steps == front + [steps[|steps| - 1]];
      NextExplained(Exec(front, params), front, steps[|steps| - 1], params);
    }
  }

  lemma {:induction false} SequentialBounded(events: seq<Event>, params: Params)
    requires AtMostOne(params.compact)
    ensures Bounded(Sequential(events, params), params)
  {
    if events != [] {
      var before, e := Sequential(events[..|events| - 1], params), events[|events| - 1];
      SequentialBounded(events[..|events| - 1], params);
      BoundInductive(before, e.now, e.prompt, params);
    }
  }

  /** So the size bound of the sequential machine holds of every stored lane of every interleaving. */
  lemma StoredLaneBounded(steps: seq<Step>, params: Params, key: Key)
    requires AtMostOne(params.compact) && key in Exec(steps, params).lanes
    ensures Settled(Exec(steps, params).lanes[key]) || Exec(steps, params).lanes[key] == DEFAULT_LANE
    ensures Bounded(Exec(steps, params).lanes[key], params)
  {
    EveryLaneExplained(steps, params);
    var l := Exec(steps, params).lanes[key];
    var events :| Subsequence(events, Begun(steps, key)) && Sequential(events, params) == l;
    SequentialBounded(events, params);
  }

  // ----- time and failure ---------------------------------------------------

  /** When the lane of `key` was last used; none before its first commit. */
  function LastUse(sys: System, key: Key): int {
    if key in sys.lanes && sys.lanes[key].lastTs.Some? then sys.lanes[key].lastTs.value else -1
  }

  /** Between evictions the stored time of a lane never goes back. */
  lemma {:induction false} TimeMovesForward(steps: seq<Step>, n: nat, params: Params, key: Key)
    requires n <= |steps| && forall i :: n <= i < |steps| ==> !steps[i].Evict?
    ensures LastUse(Exec(steps[..n], params), key) <= LastUse(Exec(steps, params), key)
    decreases |steps|
  {
    if n == |steps| {
      assert steps[..n] == steps;
    } else {
      var front := steps[..|steps| - 1];
      TimeMovesForward(front, n, params, key);
      assert front[..n] == steps[..n];
      assert Exec(steps, params) == Next(Exec(front, params), steps[|steps| - 1], params);
    }
  }

  predicate Concerns(step: Step, rid: Rid) {
    (step.Begin? || step.Commit? || step.Fail?) && step.rid == rid
  }

  function WithoutRequest(steps: seq<Step>, rid: Rid): seq<Step> {
    if steps == [] then []
    else
      WithoutRequest(steps[..|steps| - 1], rid)
      + if Concerns(steps[|steps| - 1], rid) then [] else [steps[|steps| - 1]]
  }

  /** A request that never commits leaves no trace: the store is what it would be had the request not been made. */
  lemma {:induction false} FailedLeavesNoTrace(steps: seq<Step>, rid: Rid, params: Params)
    requires Commit(rid) !in steps
    ensures Exec(steps, params).lanes == Exec(WithoutRequest(steps, rid), params).lanes
    ensures Exec(steps, params).flying - {rid} == Exec(WithoutRequest(steps, rid), params).flying
  {
    if steps != [] {
      var front, last := steps[..|steps| - 1], steps[|steps| - 1];
      FailedLeavesNoTrace(front, rid, params);
      var sys, other := Exec(front, params), Exec(WithoutRequest(front, rid), params);
      assert last in steps && last != Commit(rid);
      if !Concerns(last, rid) {
        var kept := WithoutRequest(front, rid);
        assert WithoutRequest(steps, rid) == kept + [last] && (kept + [last])[..|kept|] == kept;
        SameStep(sys, other, last, rid, params);
      } else {
        assert WithoutRequest(steps, rid) == WithoutRequest(front, rid);
        assert Next(sys, last, params).flying - {rid} == sys.flying - {rid};
      }
    }
  }

  lemma SameStep(sys: System, other: System, step: Step, rid: Rid, params: Params)
    requires AllResting(sys) && AllResting(other) && !Concerns(step, rid)
    requires sys.lanes == other.lanes && sys.flying - {rid} == other.flying
    ensures Next(sys, step, params).lanes == Next(other, step, params).lanes
    ensures Next(sys, step, params).flying - {rid} == Next(other, step, params).flying
  {
    if step.Begin? || step.Commit? || step.Fail? {
      assert step.rid in sys.flying <==> step.rid in other.flying;
      assert step.rid in sys.flying ==> sys.flying[step.rid] == (sys.flying - {rid})[step.rid];
    }
  }
}
