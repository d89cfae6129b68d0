/**
 * What a commit does: it takes effect unless the lane found is newer, so a lane
 * whose requests come one after the other is the sequential machine's, whatever
 * the requests on other lanes do meanwhile.
 */
module LaneCommits {
  import opened Wrappers
  import opened WritePolicy
  import opened LaneProtocol

  // ----- one commit ---------------------------------------------------------

  /** In every interleaving a request in flight carries the time it was made. */
  lemma {:induction false} FlyingAreTimed(steps: seq<Step>, params: Params, rid: Rid)
    requires rid in Exec(steps, params).flying
    ensures Settled(Exec(steps, params).flying[rid].lane)
  {
    var front, last := steps[..|steps| - 1], steps[|steps| - 1];
    var before := Exec(front, params);
    if last.Begin? && last.rid == rid && rid !in before.flying {
      CandidateRests(Snapshot(before.lanes, last.key), last.event, params);
    } else {
      assert rid in before.flying && Exec(steps, params).flying[rid] == before.flying[rid];
      FlyingAreTimed(front, params, rid);
    }
  }

  /**
   * In every interleaving a commit leaves a lane at least as recent as the
   * request; it leaves the request's lane exactly when the lane found had not
   * been used later; and it touches no other lane.
   */
  lemma CommitTakesEffect(steps: seq<Step>, params: Params, rid: Rid)
    requires rid in Exec(steps, params).flying
    ensures var before := Exec(steps, params).lanes;
            var p := Exec(steps, params).flying[rid];
            var after := Exec(steps + [Commit(rid)], params).lanes;
            && p.lane.lastTs.Some?
            && p.key in after && after[p.key].lastTs.Some? && after[p.key].lastTs.value >= p.lane.lastTs.value
            && (after[p.key] == p.lane <==>
                  p.key !in before || before[p.key].lastTs.None?
                  || before[p.key].lastTs.value <= p.lane.lastTs.value)
            && (after[p.key] == p.lane || (p.key in before && after[p.key] == before[p.key]))
            && after - {p.key} == before - {p.key}
  {
    FlyingAreTimed(steps, params, rid);
    assert (steps + [Commit(rid)])[..|steps|] == steps;
  }

  /**
   * What a request leaves is what deciding leaves, with a lifetime of an hour
   * when the harness pinned one: a next request of no smaller prompt is then WARM
   * exactly within that hour, if there is a prefix at all.
   */
  lemma PinnedHourKeepsWarm(l: Lane, e: Event, now: u64, p: u64, params: Params)
    requires Resting(l) && p >= e.prompt
    ensures Resting(Candidate(l, e, params))
    ensures var next, tier := Candidate(l, e, params), Decided(l, e.now, e.prompt, params).1.tier;
            var life := if e.pinned || tier == Ephemeral1h then 3600 else 300;
            && next == Decided(l, e.now, e.prompt, params).0.(ttl := life)
            && (Decided(next, now, p, params).1.class_ == Warm <==> next.c > 0 && SecondsSince(next, now) < life)
  {
    CandidateRests(l, e, params);
    DecidedInNumbers(l, e.now, e.prompt, params);
    DecidedInNumbers(Candidate(l, e, params), now, p, params);
  }

  /**
   * In every interleaving a sweep leaves a lane exactly when at most 64 are
   * stored, or it was used at most 86400 seconds before, and leaves it as it is.
   */
  lemma EvictedIff(steps: seq<Step>, params: Params, now: u64, key: Key)
    ensures var before, after := Exec(steps, params).lanes, Exec(steps + [Evict(now)], params).lanes;
            && (key in after <==>
                  && key in before
                  && (|before| <= 64 || before[key].lastTs.None? || now <= before[key].lastTs.value + 86400))
            && (key in after ==> after[key] == before[key])
    ensures Exec(steps + [Evict(now)], params).flying == Exec(steps, params).flying
  {
    assert (steps + [Evict(now)])[..|steps|] == steps;
  }

  // ----- one request after the other ----------------------------------------

  /** No request on the lane is in flight. */
  predicate Quiet(sys: System, key: Key) {
    forall r :: r in sys.flying ==> sys.flying[r].key != key
  }

  /** The sweep at `now` spares the lane: few lanes are stored, or the lane was used within a day. */
  predicate SweepSpares(lanes: map<Key, Lane>, key: Key, now: u64) {
    |lanes| <= 64 || (key in lanes && lanes[key].lastTs.Some? ==> now <= lanes[key].lastTs.value + 86400)
  }

  /** On this lane a request begins when the one before has committed, no earlier than it, and none fails. */
  predicate KeepsOrder(sys: System, begun: seq<Event>, step: Step, key: Key) {
    match step
    case Begin(rid, k, e) =>
      k == key ==> rid !in sys.flying && Quiet(sys, key) && (begun != [] ==> begun[|begun| - 1].now <= e.now)
    case Commit(rid) => true
    case Fail(rid) => rid in sys.flying ==> sys.flying[rid].key != key
    case Evict(now) => SweepSpares(sys.lanes, key, now)
  }

  predicate OneAtATime(steps: seq<Step>, params: Params, key: Key) {
    steps == [] ||
    (var front := steps[..|steps| - 1];
     && OneAtATime(front, params, key)
     && KeepsOrder(Exec(front, params), Begun(front, key), steps[|steps| - 1], key))
  }

  /** Nothing in flight and everything committed, or everything but the last request, which is in flight. */
  ghost predicate InStep(sys: System, begun: seq<Event>, params: Params, key: Key) {
    || (Quiet(sys, key) && Snapshot(sys.lanes, key) == Sequential(begun, params))
    || (exists r :: InFlight(sys, begun, params, key, r))
  }

  ghost predicate InFlight(sys: System, begun: seq<Event>, params: Params, key: Key, r: Rid) {
    && r in sys.flying && sys.flying[r] == Pending(key, Sequential(begun, params))
    && (forall s :: s in sys.flying && s != r ==> sys.flying[s].key != key)
    && begun != [] && Ordered(begun)
    && Snapshot(sys.lanes, key) == Sequential(begun[..|begun| - 1], params)
  }

  /** The last request is not earlier than the one before. */
  predicate Ordered(begun: seq<Event>) {
    |begun| < 2 || begun[|begun| - 2].now <= begun[|begun| - 1].now
  }

  lemma BeginStarts(sys: System, begun: seq<Event>, step: Step, params: Params, key: Key)
    requires AllResting(sys) && Quiet(sys, key) && Snapshot(sys.lanes, key) == Sequential(begun, params)
    requires step.Begin? && step.key == key && KeepsOrder(sys, begun, step, key)
    ensures InFlight(Next(sys, step, params), begun + [step.event], params, key, step.rid)
  {
    assert (begun + [step.event])[..|begun|] == begun;
  }

  lemma CommitEnds(sys: System, begun: seq<Event>, params: Params, key: Key, r: Rid)
    requires AllResting(sys) && InFlight(sys, begun, params, key, r)
    ensures var next := Next(sys, Commit(r), params);
            Quiet(next, key) && Snapshot(next.lanes, key) == Sequential(begun, params)
  {
    var before := begun[..|begun| - 1];
    if before != [] {
      assert before[|before| - 1] == begun[|begun| - 2];
    }
  }

  /** Steps that concern other lanes, and sweeps that spare this one, leave both parts alone. */
  lemma OtherStep(sys: System, begun: seq<Event>, step: Step, params: Params, key: Key)
    requires AllResting(sys) && KeepsOrder(sys, begun, step, key) && !(step.Begin? && step.key == key)
    requires step.Commit? && step.rid in sys.flying ==> sys.flying[step.rid].key != key
    ensures Snapshot(Next(sys, step, params).lanes, key) == Snapshot(sys.lanes, key)
    ensures forall r :: r in sys.flying && sys.flying[r].key == key ==>
              r in Next(sys, step, params).flying && Next(sys, step, params).flying[r] == sys.flying[r]
    ensures forall r :: r in Next(sys, step, params).flying && Next(sys, step, params).flying[r].key == key ==>
              r in sys.flying && Next(sys, step, params).flying[r] == sys.flying[r]
  {
  }

  lemma StepStays(sys: System, begun: seq<Event>, step: Step, params: Params, key: Key)
    requires AllResting(sys) && InStep(sys, begun, params, key) && KeepsOrder(sys, begun, step, key)
    ensures InStep(Next(sys, step, params),
                   if step.Begin? && step.key == key then begun + [step.event] else begun, params, key)
  {
    var next := Next(sys, step, params);
    if step.Begin? && step.key == key {
      BeginStarts(sys, begun, step, params, key);
    } else if step.Commit? && step.rid in sys.flying && sys.flying[step.rid].key == key {
      var r :| InFlight(sys, begun, params, key, r);
      assert step.rid == r;
      CommitEnds(sys, begun, params, key, r);
    } else {
      OtherStep(sys, begun, step, params, key);
      if !Quiet(sys, key) {
        var r :| InFlight(sys, begun, params, key, r);
        assert InFlight(next, begun, params, key, r);
      }
    }
  }

  /** One step more: what came before kept the order, and so does the step. */
  lemma OneMore(front: seq<Step>, last: Step, params: Params, key: Key)
    requires OneAtATime(front + [last], params, key)
    ensures OneAtATime(front, params, key) && KeepsOrder(Exec(front, params), Begun(front, key), last, key)
    ensures Exec(front + [last], params) == Next(Exec(front, params), last, params)
  {
    assert (front + [last])[..|front|] == front;
  }

  lemma StaysStep(front: seq<Step>, last: Step, params: Params, key: Key, sys: System, begun: seq<Event>)
    requires OneAtATime(front + [last], params, key) && sys == Exec(front, params) && begun == Begun(front, key)
    requires InStep(sys, begun, params, key)
    ensures InStep(Exec(front + [last], params), Begun(front + [last], key), params, key)
  {
    OneMore(front, last, params, key);
    BegunStep(front, last, key);
    StepStays(sys, begun, last, params, key);
  }

  lemma {:induction false} StaysInStep(steps: seq<Step>, params: Params, key: Key)
    requires OneAtATime(steps, params, key)
    ensures InStep(Exec(steps, params), Begun(steps, key), params, key)
  {
    if steps == [] {
      assert Quiet(Exec([], params), key);
    } else {
      var front, last := steps[..|steps| - 1], steps[|steps| - 1];
      assert steps == front + [last];
      OneMore(front, last, params, key);
      StaysInStep(front, params, key);
      StaysStep(front, last, params, key, Exec(front, params), Begun(front, key));
    }
  }

  /**
   * However the requests on other lanes interleave, a lane whose requests begin
   * after the one before has committed, at times that do not decrease, is what
   * the sequential machine leaves after all of them: no commit is lost.
   */
  lemma NoCommitIsLost(steps: seq<Step>, params: Params, key: Key)
    requires OneAtATime(steps, params, key) && Quiet(Exec(steps, params), key)
    ensures Snapshot(Exec(steps, params).lanes, key) == Sequential(Begun(steps, key), params)
    ensures Begun(steps, key) != [] ==> key in Exec(steps, params).lanes
  {
    StaysInStep(steps, params, key);
  }
}
